# Student registry on two parachains: a verified model

Two parachains run the same pallet. The university chain (1000) creates students and
graduates them; a graduation removes the student and sends its record, as a SCALE-encoded
call inside an XCM program, over a one-way HRMP channel to the company chain (2000), which
stores it under a new id. A web page lists the students of both chains by asking for every
id below a counter while the chains go on producing blocks.

The project models the pallet, the message and its way through the barrier, the channel, and
the scan of the web page. It proves what every dispatch keeps, what holds after every run of
one chain or of both, and what becomes of every single student.

## How the model is built

| file | content |
|---|---|
| `Types.dfy`, `Lists.dfy` | values, runtime constants, the list operations of the pallet |
| `Scale.dfy`, `Wire.dfy` | the byte format of all six calls, both directions; the bytes written out |
| `Xcm.dfy`, `Admission.dfy` | the graduation program, the router, the barrier, the call filter; what the barrier decides on programs written out |
| `PalletSpec.dfy`, `Effects.dfy` | each dispatchable as one all-or-nothing operation on storage; what it reports and changes, field by field |
| `StudentPallet.dfy` | the pallet as a class that writes storage step by step, with rollback, proved against `PalletSpec` |
| `Registry.dfy` | the abstract registry (id to owner and record) and the refinement proof |
| `Consistency.dfy` | the storage invariant and exactly when a dispatch keeps it; counting; errors |
| `Commutation.dfy` | reordering of owner calls |
| `Chain.dfy` | runs of one chain: ids, balance, graduation marks |
| `Delivery.dfy` | from a message to a dispatch on the receiving chain |
| `TwoChains.dfy`, `Journeys.dfy` | both chains and the channel, the history of every student |
| `Draining.dfy` | emptying the channel: interleaving, order, loss |
| `Losses.dfy` | when nothing is lost in runs that use both chains while messages are delivered |
| `Examples.dfy` | two complete runs: a student that arrives and one that is lost |
| `Board.dfy`, `Views.dfy` | the web page's scan of a moving chain; both chains of the system as chains it may scan |
| `BothLists.dfy` | the page's two lists side by side, student by student |

Choices that are not the pallet's are arguments: the answer of the message router
(`SendOutcome`), the order in which `StudentsByOwner::iter()` yields accounts
(`Env.owners`, `Network.order`), the interleaving of calls and deliveries, and the moment at
which each query of the web page is answered. A dispatch runs in a storage layer, so an error restores
storage and outgoing messages. A delivered message is consumed even if its dispatch fails.

`student_id + 1` is 32-bit arithmetic and the release profile (`Cargo.toml`) has no overflow
checks, so the counter wraps. A dispatch therefore breaks the invariant if and only if, before
it, the counter stands at 2^32 - 1, the call is an admission whose checks pass and the
account's list has room (`Consistency.InvariantKeptExactly`); statements about runs ask that
an allocating call finds the counter below 2^32 - 1 (`Chain.Legal`).

Where code and documentation disagree the model follows the code:

- `receive_student` is described as not called by users and `delete_any_student` as for admins
  (`pallets/template/src/lib.rs` lines 303 and 374, `frontend/README.md` line 398); both
  accept every signed origin and root, and the model has these origin checks.
- `frontend/README.md` line 400 shows `receive_student` without the new owner; the code has it.
- The READMEs say that a graduated student appears on the company chain. That is false when
  its owner already has 100 students there: `Examples.GraduateLost` is a legal run of 103
  events after which the student is on neither chain nor on its way, and its message is lost.
  `Draining.NoLossExactly`, `Draining.DrainWithoutLoss` and `Losses.LossFreeBetween` say when
  nothing is lost.

## Model

| member | source | states |
|---|---|---|
| Lists.WithoutExactly | pallets/template/src/lib.rs:250-252 | `position` and `swap_remove` take exactly the given id off a list without repetitions and leave it without repetitions |
| Lists.WithoutSwaps | pallets/template/src/lib.rs:250-252 | an id that is listed is taken off at its first position, where the last element then stands; all others keep their positions |
| Scale.U32RoundTrip | pallets/template/src/lib.rs:85 | four little-endian bytes decode to the number and leave the rest |
| Scale.CompactRoundTrip | pallets/template/src/lib.rs:83-84 | every 32-bit length decodes from its compact form, in all four widths |
| Scale.CompactIsShortest | pallets/template/src/lib.rs:83-84 | only the shortest compact form of a length is accepted |
| Scale.StudentRoundTrip | pallets/template/src/lib.rs:82-88 | a bounded student, followed by any bytes, decodes to itself and those bytes |
| Scale.StudentExact | pallets/template/src/lib.rs:82-88 | every accepted student re-encodes to the bytes consumed |
| Scale.DecodeStudent | pallets/template/src/lib.rs:82-88 | a decoded student respects the length bounds of its type |
| Scale.CallRoundTrip | pallets/template/src/lib.rs:145-310 | each of the six calls, followed by any bytes, decodes to itself and those bytes |
| Scale.CallExact | pallets/template/src/lib.rs:145-310 | every accepted input is the encoding of the decoded call and the unused bytes |
| Scale.RuntimeCallRoundTrip | runtime/src/lib.rs:314-315 | the same with the pallet index in front |
| Scale.RuntimeCallExact | runtime/src/lib.rs:314-315 | the same for accepted inputs with the pallet index |
| Scale.EncodingIsPrefixFree | pallets/template/src/lib.rs:221-226 | no encoded call is a prefix of another and encoding is injective |
| Scale.GraduationCallSize | runtime/src/configs/mod.rs:299-304 | with the shipped bounds a graduation's call has 42 bytes and the names, at most 72 |
| Wire.U32Bytes | pallets/template/src/lib.rs:85 | four bytes, the least significant first |
| Wire.CompactBytes | pallets/template/src/lib.rs:83-84 | the bytes of a length in each of the four forms |
| Wire.ReceiveBytes | pallets/template/src/lib.rs:221-226 | a graduation's call is 50, 5, the two names with their lengths, the age, the gender as 0, 1 or 2, the mark as 0 or 1, the owner |
| Wire.ShortReceiveBytes | pallets/template/src/lib.rs:221-226 | the same in bytes only, for names below 64 bytes |
| Wire.CreateBytes | pallets/template/src/lib.rs:149-157 | a creation is 50, 0 and the four fields |
| Wire.UpdateBytes | pallets/template/src/lib.rs:332-341 | an update is 50, 4, the id and the four fields |
| Wire.IdCallBytes | pallets/template/src/lib.rs:194-380 | graduation, deletion and admin deletion are 50, then 1, 2 or 6, then the id |
| Wire.AcceptedTags | pallets/template/src/lib.rs:149-375 | no other call index is accepted |
| Xcm.TopicIsTransparent | runtime/src/configs/xcm_config.rs:188-193 | stripping the topic that the router added gives back the program; routing twice adds nothing |
| Xcm.NoCreditAdmission | runtime/src/configs/xcm_config.rs:97-130 | whatever the SDK's pieces decide, without credit a program gets in if and only if it is not denied and, after at most eight leading origin changes, what is left pays or may run for free from the origin reached under one of the two filters |
| Xcm.CreditAdmission | runtime/src/configs/xcm_config.rs:114-130 | the same with weight credit: a program that is not denied also gets in if the credit covers its weight |
| Xcm.FilteredOrigins | runtime/src/configs/xcm_config.rs:97-110 | the two filters accept exactly the relay chain and its executive body, and exactly the sibling parachains |
| Xcm.FreeAdmission | runtime/src/configs/xcm_config.rs:97-130 | for simplified pieces, in which the request for free execution must follow the origin changes directly: a program that does not pay gets in if and only if no reserve transfer to the relay chain is in it at any depth, at most eight origin changes lead it and it then asks for free execution from the relay chain, its executive body or a sibling |
| Xcm.DescentEndsTrust | runtime/src/configs/xcm_config.rs:104-130 | a sibling that first descends into one of its own locations gets no free execution |
| Xcm.GraduationAdmission | runtime/src/configs/xcm_config.rs:97-130 | a routed graduation is admitted, on any chain and for any weight, exactly from the relay chain `(1, [])`, its executive body and `(1, [Parachain(_)])`; from a sibling only through the sibling rule |
| Admission.DenialIsDeep | runtime/src/configs/xcm_config.rs:116 | a program is denied if and only if one of three reserve transfers to the relay chain is anywhere in it, nested programs included |
| Admission.PayingPrograms | runtime/src/configs/xcm_config.rs:121 | a program pays if and only if it begins with assets, then only `ClearOrigin`, then enough execution time |
| Admission.LimitedExecution | runtime/src/configs/xcm_config.rs:123 | a sibling's request for free execution is granted if and only if the program is not denied and the limit covers its weight |
| Admission.AfterUniversalOrigin | runtime/src/configs/xcm_config.rs:119-127 | behind one universal origin a graduation gets in if and only if that is another parachain or the executive body |
| Admission.AfterDescent | runtime/src/configs/xcm_config.rs:119-127 | behind one descent a graduation gets in if and only if the location reached is one of the trusted ones |
| Admission.LongDescent | runtime/src/configs/xcm_config.rs:119-127 | a paying program may descend to eight junctions and no further |
| Admission.EightChanges | runtime/src/configs/xcm_config.rs:127 | the barrier follows eight origin changes and no more |
| PalletSpec.AllOrNothing | pallets/template/src/lib.rs:145-403 | a failed dispatch changes and sends nothing; only a successful graduation sends, and one message |
| Effects.CreateEffect | pallets/template/src/lib.rs:151-190 | exactly when a creation reports which error; a success stores the given fields, unmarked, under the old counter, lists the id last and changes nothing else |
| Effects.GraduateEffect | pallets/template/src/lib.rs:196-267 | exactly when a graduation reports which error; a success removes the record, swaps the id out of the caller's list and changes nothing else |
| Effects.GraduationMessage | pallets/template/src/lib.rs:214-246 | a graduation sends one message, to `(1, [Parachain(destination)])`: unlimited free execution, then the call for the marked student and the caller with the fallback weight, then the topic |
| Effects.DeleteEffect | pallets/template/src/lib.rs:273-300 | exactly when a deletion reports which error, and what it changes |
| Effects.ReceiveEffect | pallets/template/src/lib.rs:306-328 | exactly when a receipt fails, and what it changes |
| Effects.UpdateEffect | pallets/template/src/lib.rs:334-371 | exactly when an update reports which error; a success replaces the four fields, keeps the mark and changes nothing else |
| Effects.DeleteAnyEffect | pallets/template/src/lib.rs:377-402 | exactly when an admin deletion fails; a success removes the record and swaps the id out of the first list in iteration order that has it |
| Effects.RuntimeBounds | runtime/src/configs/mod.rs:299-307 | in the shipped runtime names over 10 and surnames over 20 bytes are refused and graduates go to parachain 2000 |
| PalletSpec.FirstHitIsFullScan | pallets/template/src/lib.rs:389-397 | for every iteration order, stopping at the first hit equals a full scan if and only if at most one list holds the id |
| StudentPallet.Pallet.constructor | pallets/template/src/lib.rs:91-106 | empty storage and a counter at 0 |
| StudentPallet.Pallet.TryPush | pallets/template/src/lib.rs:184-187 | appends to the account's list, or refuses at 100 entries and changes nothing |
| StudentPallet.Pallet.TrySwapRemove | pallets/template/src/lib.rs:249-256 | swaps the first such id out of the account's list, the last one taking its position, or refuses if it is not there and changes nothing |
| StudentPallet.Pallet.CreateStudent | pallets/template/src/lib.rs:151-190 | returns the result and leaves exactly the storage of the specification, except that a full list leaves the new record and the raised counter behind |
| StudentPallet.Pallet.GraduateStudent | pallets/template/src/lib.rs:196-267 | returns the result, leaves exactly the storage and sends exactly the messages of the specification, also on errors; the check after sending never fails |
| StudentPallet.Pallet.DeleteStudent | pallets/template/src/lib.rs:273-300 | result and storage of the specification for the owner's deletion, unchanged on errors |
| StudentPallet.Pallet.ReceiveStudent | pallets/template/src/lib.rs:306-328 | result and storage of the specification for a received student, with the same remainder when the list is full |
| StudentPallet.Pallet.UpdateStudent | pallets/template/src/lib.rs:334-371 | result and storage of the specification for an update, which keeps the graduation mark; unchanged on errors |
| StudentPallet.Pallet.DeleteAnyStudent | pallets/template/src/lib.rs:377-402 | result and storage of the specification for the admin deletion, with the scan loop that stops at the first hit, for every order; unchanged on errors |
| StudentPallet.Pallet.Dispatch | pallets/template/src/lib.rs:145-146 | a dispatch of any call has the specified result, storage and messages; an error undoes partial writes |
| Registry.PalletRefinesRegistry | pallets/template/src/lib.rs:93-106 | every dispatch on consistent storage returns the result and messages of the one-map registry and stores its new state, for every iteration order |
| Registry.ScanIsDischarge | pallets/template/src/lib.rs:391-397 | the admin scan changes the owner's list and no other |
| Registry.RepresentsIsAbs | pallets/template/src/lib.rs:95-106 | a storage stores at most one registry, and a storage that stores one is consistent |
| Registry.AbsRepresents | pallets/template/src/lib.rs:95-106 | every consistent storage stores a registry |
| Registry.OwnedSize | pallets/template/src/lib.rs:100-106 | the length of an owner's list is the number of the owner's live students |
| Consistency.AgreementKeptExactly | pallets/template/src/lib.rs:93-106 | record map and owner lists stay inverse after a dispatch if and only if not all of this holds before it: the call is an admission whose checks pass, its account's list has room and the next id is live |
| Consistency.AdmissionForeseen | pallets/template/src/lib.rs:160-187 | a dispatch hands out an id if and only if, before it, the origin and length checks of an admission pass and its account has fewer than 100 entries |
| Consistency.InvariantKeptExactly | pallets/template/src/lib.rs:145-403 | agreement, ids below the counter and length bounds survive a dispatch if and only if not both hold before it: the counter stands at 2^32 - 1, and the call is an admission whose checks pass and whose account's list has room |
| Consistency.WrapOverwritesStudent | pallets/template/src/lib.rs:168-181 | after the wrap the next admission overwrites student 0 and breaks agreement |
| Consistency.WrapExample | pallets/template/src/lib.rs:168-181 | a concrete consistent storage on which that happens |
| Consistency.RecordsAreListEntries | pallets/template/src/lib.rs:95-106 | the number of records is the sum of the list lengths, in any order of accounts |
| Consistency.CapacityErrorExactly | pallets/template/src/lib.rs:184-187 | `MaxStudentsReached` is returned if and only if the earlier checks pass and the account has 100 live students |
| Consistency.GraduationIsAllOrNothing | pallets/template/src/lib.rs:196-267 | a graduation names its error and changes nothing, or sends one message and removes exactly that student |
| Consistency.ListedStudentsExist | pallets/template/src/lib.rs:207-208 | graduation and update never return `StudentNotFound` |
| Consistency.AdmitAddsEntry | pallets/template/src/lib.rs:314-323 | an admission under a fresh id adds one entry to the registry and changes no other |
| Commutation.OwnerCallsCommute | pallets/template/src/lib.rs:193-371 | two owner calls on different students give the same results, messages and registry in either order |
| Commutation.OneSenderKeepsOrder | pallets/template/src/lib.rs:241-246 | for the same pairs of calls, unless both graduate, both orders put the same sequence on the channel |
| Commutation.ApplyCommutes | pallets/template/src/lib.rs:193-371 | the same on the registry |
| Chain.InvariantThroughout | pallets/template/src/lib.rs:145-403 | the invariant holds after every prefix of every legal run |
| Chain.RunRefines | pallets/template/src/lib.rs:145-403 | a run of the pallet stores at every moment the state of the same run of the registry |
| Chain.IdsAreConsecutive | pallets/template/src/lib.rs:167-169 | the ids handed out by a run are consecutive; a rolled-back allocation leaves no gap |
| Chain.NoReuse | pallets/template/src/lib.rs:314-315 | the counter never falls, an id once handed out and live later was live all along, and a graduation mark stays |
| Chain.RemovedForGood | pallets/template/src/lib.rs:167-181 | a removed id is never live again |
| Chain.OwnersNeverChange | pallets/template/src/lib.rs:145-403 | along a run a student never changes hands, comes back or loses its mark |
| Chain.RecordsBalance | pallets/template/src/lib.rs:145-403 | records are successful creations and receipts minus deletions and graduations |
| Chain.HomeHasNoGraduates | pallets/template/src/lib.rs:177-211 | without `receive_student` no record is marked and `AlreadyGraduated` never arises |
| Delivery.ParcelAdmits | pallets/template/src/lib.rs:220-239 | a graduation's message passes barrier, decoding and filter and admits exactly the student and owner it was built from |
| Delivery.CallsAreExecuted | runtime/src/configs/xcm_config.rs:132-142 | from a sibling every call of the pallet that asks for free execution and is addressed to this chain is dispatched, signed by the sibling's account |
| Delivery.OnlyCallsAreExecuted | runtime/src/configs/xcm_config.rs:132-142 | nothing else is dispatched: not another destination, origin kind or pallet, and no payload with bytes left over |
| Delivery.SiblingAccountBytes | runtime/src/configs/xcm_config.rs:46-53 | a sibling's account is "sibl", its number in four bytes and 24 zeros |
| Delivery.ThreeInstructions | runtime/src/configs/xcm_config.rs:91-95 | a program of three instructions weighs three times the unit weight |
| TwoChains.HeadAdmits | pallets/template/src/lib.rs:306-323 | the message at the head of the channel admits the student recorded when it left |
| TwoChains.GraduationCarries | pallets/template/src/lib.rs:206-239 | what a graduation puts on the channel is the caller's own record with the mark set |
| TwoChains.TransitionKeepsCoherence | pallets/template/src/lib.rs:145-403 | every call and delivery keeps both chains' invariants and the account of where every student is |
| TwoChains.DeliveryIsReceive | pallets/template/src/lib.rs:306-328 | seen from the company chain a delivery is a legal `receive_student` dispatch |
| Journeys.CoherentThroughout | pallets/template/src/lib.rs:145-403 | that account is right after every prefix of every run of both chains |
| Journeys.ExactlyOnePlace | pallets/template/src/lib.rs:145-403 | each student ever created is in one place, and every live record, message in flight and lost message is one student's place |
| Journeys.StudentsNeverReturn | pallets/template/src/lib.rs:145-403 | between any two moments of a run: a student on a chain is still in its place if and only if its record is still in that chain's storage, then with its owner and mark; once gone it is never on that chain again, under this id or another; a message is on its way until its turn comes; deleted stays deleted and lost stays lost |
| Journeys.StudentsFollowEvents | pallets/template/src/lib.rs:145-403 | in every run each event moves exactly the student it is about: a deletion to the deleted of its chain, a graduation onto the channel, a delivery onto the company chain or, for a full list, to the losses |
| Journeys.ChannelIsAddressed | pallets/template/src/lib.rs:214-246 | in every run each message on the channel goes to the destination parachain and carries the call for the graduate it was sent for |
| Journeys.EndToEndFidelity | pallets/template/src/lib.rs:206-323 | every delivery has an earlier successful graduation that sent the message with this number, and stores the student as it was then on the university chain, marked, for its owner, under the next id and with nothing else changed, or, if the owner has 100 students there, adds exactly this message to the losses |
| Journeys.EveryMessageWasSent | pallets/template/src/lib.rs:206-246 | every message ever put on the channel was sent by a graduation and is on record as the student that left |
| Journeys.SentOnce | pallets/template/src/lib.rs:220-246 | no two graduations send the same message |
| Journeys.DeliveredInOrder | zombienet.toml:4-6 | messages arrive in the order of graduation: the number of the message at the head is the number of deliveries so far |
| Examples.JourneyExample | pallets/template/src/lib.rs:151-328 | a legal run that takes a student from the university chain over the channel to the company chain |
| Journeys.ArrivedNeverLeaves | pallets/template/src/lib.rs:210-211 | a delivered student is never sent on, whatever the router would answer |
| Journeys.UniversityHasNoGraduates | pallets/template/src/lib.rs:177 | in runs without `receive_student` on the university chain no student there is marked |
| Draining.InterleavingIsIrrelevant | pallets/template/src/lib.rs:196-328 | however deliveries are mixed in, draining gives the same chains and losses as making all calls first |
| Draining.CallsInOrder | pallets/template/src/lib.rs:196-267 | the calls made first are all calls on the university chain, in their order, and nothing else |
| Draining.DrainInPortions | pallets/template/src/lib.rs:306-328 | draining a channel in two portions is draining it |
| Draining.DrainReceivesAll | pallets/template/src/lib.rs:306-328 | draining admits what the channel carries in order and loses exactly what is refused |
| Draining.CompanyIsFoldOfGraduates | pallets/template/src/lib.rs:306-328 | with deliveries only, company chain and losses are at every moment those of admitting the students delivered so far, and after draining those of admitting all graduates, in order: each is stored or its message is lost |
| Draining.ExcessIsRefused | pallets/template/src/lib.rs:320-323 | an account ends with its students and those on the way, up to 100, and the excess is what is refused |
| Draining.NoLossExactly | pallets/template/src/lib.rs:320-323 | nothing is refused if and only if no account would go beyond 100 |
| Examples.GraduateLost | pallets/template/src/lib.rs:306-328 | a legal run from the empty start after which a graduate is on neither chain nor on the channel, and its message is lost |
| Draining.IdsInOrder | pallets/template/src/lib.rs:314-317 | without refusals the arrivals are stored for their owners under consecutive ids in order |
| Draining.DrainWithoutLoss | pallets/template/src/lib.rs:306-328 | from every reachable state draining loses nothing if and only if every account stays within 100, and then the arrivals are stored for their owners under ids in graduation order |
| Losses.LossFreeBetween | pallets/template/src/lib.rs:306-328 | between any two moments of any run, whatever is called on either chain: nothing is lost if every account's students on the company chain, those whose delivery is attempted and those given by calls there are at most 100; if nobody is deleted there meanwhile, only then |
| Losses.RoomKeepsAll | pallets/template/src/lib.rs:320-323 | while no call on the company chain asks for a student, room at first for all those on their way and all that graduate meanwhile is enough, whatever else is called |
| Board.StudentBoard.ScanChain | frontend/src/App.jsx:116-133 | the counted loop returns the rows of the specification, which are the students live when read, and stops without rows if and only if a query is rejected |
| Board.StudentBoard.LoadStudentsFromChains | frontend/src/App.jsx:112-161 | if all queries are answered both lists are replaced by the students live when read; a rejection leaves the lists not yet loaded as they were |
| Board.RowsAreTheLive | frontend/src/App.jsx:120-133 | the rows have increasing ids and are the students live when read, as read |
| Board.ScanSucceeds | frontend/src/App.jsx:116-133 | a scan succeeds if and only if the counter and every id below it are answered for; an id without a student is passed over |
| Board.ScanShowsExactlyTheSteady | frontend/src/App.jsx:116-133 | on a moving chain a scan shows a student if and only if it was live from the reading of the counter to its own reading |
| Views.EachChainRuns | pallets/template/src/lib.rs:145-403 | along a run of the system each chain's states are those of a legal run of that chain alone, a delivery being a `receive_student` dispatch |
| Views.BoardShowsEitherChain | frontend/src/App.jsx:112-161 | the same for either list of the page next to the running system, deliveries included |
| BothLists.RowIsOneStudent | frontend/src/App.jsx:120-133 | every row is exactly one student, who kept that id on that chain from the reading of the counter to the reading of the row |
| BothLists.ListedIsStayed | frontend/src/App.jsx:116-133 | a student is on a list if and only if it was on that chain when the counter was read and still there when its own id was read |
| BothLists.ListsByPlace | frontend/src/App.jsx:112-161 | a student that exists when the load begins and is neither deleted nor lost is on the company list exactly if it had arrived when the company's counter was read, and on neither list exactly if it was in flight then and had left before its university reading |
| BothLists.ListedTwice | frontend/src/App.jsx:112-161 | a student on both lists was delivered after its university reading and before the company's counter was read |

## Left out

- `node/`, `runtime/src/apis.rs`, genesis presets, weights and benchmarks: process wiring and constants.
- Events, weights and fees of the dispatchables, `CompositeStruct` and the error variants no call returns.
- `pallets/template/src/tests.rs`, `mock.rs` and `benchmarking.rs`: they refer to calls that the pallet no longer has.
- The relay chain, HRMP and the message queue: the channel is a FIFO queue that hands over each message once, and the router's answer is arbitrary.
- SDK barrier pieces: their code is not part of this model. `Xcm.NoCreditAdmission` holds for any pieces; `Xcm.Documented` states them as documented, in simple form, and only the statements about free admission and deliveries use it. Other instructions are one case, `Unlisted`.
- Xcm.FreeAdmission: rests on the simplified pieces; the SDK's own piece may look past further instructions before the request for free execution.
- The form of a sibling's account and the weight of an instruction are SDK conventions, stated in `Delivery`; the surplus of a call's own weight is not modelled.
- Delivery.Execute: runs only programs of the shape a graduation has; other programs are rejected, because their instructions are SDK code.
- Scale.DecodeRuntimeCall: calls of other pallets are recognised by their index but not decoded.
- Draining: interleaving is stated for company chains that change only by deliveries; calls made there directly take ids and list entries in between.
- Board: text decoding and the conversion of numbers for display, React state beyond the two lists, and signing. The two identical loops of the page are one method.
- Who should be allowed to call what: origin checks are modelled as written.
