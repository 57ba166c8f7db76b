/**
 * Cross-chain programs: the message a graduation sends, the router that stamps it
 * and the barrier that decides on the other side whether it may run.
 * Only the instructions that the barrier looks at are told apart.
 */
module Xcm {
  import opened Types
  import opened Scale

  datatype Body = Executive | OtherBody

  datatype Junction = Parachain(id: u32) | Plurality(body: Body) | OtherJunction

  datatype Location = Location(parents: nat, interior: seq<Junction>)

  datatype Weight = Weight(refTime: nat, proofSize: nat) {
    predicate AllGte(other: Weight) {
      refTime >= other.refTime && proofSize >= other.proofSize
    }
  }

  datatype WeightLimit = Unlimited | Limited(max: Weight) {
    predicate Covers(weight: Weight) {
      Unlimited? || max.AllGte(weight)
    }
  }

  datatype OriginKind = SovereignAccount | OtherKind

  datatype Instruction =
    | UnpaidExecution(limit: WeightLimit, checkOrigin: Option<Location>)
    | Transact(kind: OriginKind, fallbackMaxWeight: Option<Weight>, call: seq<byte>)
    | SetTopic(topic: seq<byte>)
    | WithdrawAsset
    | ReceiveTeleportedAsset
    | ReserveAssetDeposited
    | ClaimAsset
    | ClearOrigin
    | BuyExecution(limit: WeightLimit)
    | UniversalOrigin(junction: Junction)
    | DescendOrigin(path: seq<Junction>)
    | InitiateReserveWithdraw(reserve: Location)
    | DepositReserveAsset(dest: Location)
    | TransferReserveAsset(dest: Location)
    | SetAppendix(nested: seq<Instruction>)
    | SetErrorHandler(nested: seq<Instruction>)
    | ExecuteWithOrigin(descendant: Option<seq<Junction>>, nested: seq<Instruction>)
    | Unlisted

  type Program = seq<Instruction>

  /** A program on its way to another chain. */
  datatype Outbound = Outbound(dest: Location, program: Program)

  const RELAY := Location(1, [])

  /** The longest interior of a location. */
  const MAX_JUNCTIONS := 8

  /** The number of origin changes the runtime lets the barrier follow. */
  const MAX_PREFIXES: nat := 8

  function SiblingLocation(para: u32): Location {
    Location(1, [Parachain(para)])
  }

  // Sending

  /** The program that `graduate_student` builds. */
  function GraduationProgram(student: Student, owner: AccountId): Program
  {
    [ UnpaidExecution(Unlimited, None),
      Transact(SovereignAccount, Some(Weight(1_000_000_000, 64 * 1024)),
               EncodeRuntimeCall(ReceiveStudent(student, owner))) ]
  }

  predicate EndsInTopic(p: Program) {
    p != [] && p[|p| - 1].SetTopic?
  }

  /** The router closes every program with a topic, keeping one that is already there. */
  function Route(p: Program, topic: seq<byte>): Program {
    if EndsInTopic(p) then p else p + [SetTopic(topic)]
  }

  // Receiving: the pieces of the barrier

  function StripTopic(p: Program): Program {
    if EndsInTopic(p) then p[..|p| - 1] else p
  }

  predicate ParentOrParentsExecutivePlurality(origin: Location) {
    origin == RELAY || origin == Location(1, [Plurality(Executive)])
  }

  predicate AllowSiblingParachains(origin: Location) {
    origin.parents == 1 && |origin.interior| == 1 && origin.interior[0].Parachain?
  }

  /** A reserve transfer to the relay chain, in the program or in a program nested in it. */
  predicate ReserveTransferToRelay(p: Program) {
    exists i | 0 <= i < |p| ::
      match p[i]
      case InitiateReserveWithdraw(reserve) => reserve == RELAY
      case DepositReserveAsset(dest) => dest == RELAY
      case TransferReserveAsset(dest) => dest == RELAY
      case SetAppendix(nested) => ReserveTransferToRelay(nested)
      case SetErrorHandler(nested) => ReserveTransferToRelay(nested)
      case ExecuteWithOrigin(_, nested) => ReserveTransferToRelay(nested)
      case _ => false
  }

  predicate TakeWeightCredit(weight: Weight, credit: Weight) {
    credit.AllGte(weight)
  }

  predicate LoadsAssets(i: Instruction) {
    i.WithdrawAsset? || i.ReceiveTeleportedAsset? || i.ReserveAssetDeposited? || i.ClaimAsset?
  }

  function SkipClearOrigin(p: Program): Program {
    if p != [] && p[0].ClearOrigin? then SkipClearOrigin(p[1..]) else p
  }

  /** Assets first, then the purchase of enough execution time; open to every origin. */
  predicate AllowTopLevelPaidExecution(p: Program, weight: Weight) {
    && p != [] && LoadsAssets(p[0])
    && var rest := SkipClearOrigin(p[1..]);
       rest != [] && rest[0].BuyExecution? && rest[0].limit.Covers(weight)
  }

  predicate AsksForFreeExecution(p: Program, weight: Weight) {
    p != [] && p[0].UnpaidExecution? && p[0].limit.Covers(weight)
  }

  /**
   * The SDK's decisions that the runtime composes: which programs are denied outright, which
   * pay for themselves, and which may run for free given a filter of origins.
   */
  datatype Pieces = Pieces(
    denies: Program -> bool,
    paid: (Location, Program, Weight) -> bool,
    unpaid: (Location -> bool, Location, Program, Weight) -> bool)

  /** The pieces as the SDK documents them, in simple form: the request for free execution comes first. */
  function Documented(): Pieces {
    Pieces(p => ReserveTransferToRelay(p),
           (origin, p, weight) => AllowTopLevelPaidExecution(p, weight),
           (filter: Location -> bool, origin, p, weight) => filter(origin) && AsksForFreeExecution(p, weight))
  }

  /** The three ways in that the runtime tries in turn. */
  predicate AllowedFrom(pieces: Pieces, origin: Location, p: Program, weight: Weight) {
    || pieces.paid(origin, p, weight)
    || pieces.unpaid(ParentOrParentsExecutivePlurality, origin, p, weight)
    || pieces.unpaid(AllowSiblingParachains, origin, p, weight)
  }

  /** Where a universal junction lies, seen from parachain `here`. */
  function RelativeTo(here: u32, j: Junction): Location {
    if j == Parachain(here) then Location(0, []) else Location(1, [j])
  }

  /** Follows up to `limit` leading origin changes before asking `AllowedFrom`. */
  predicate WithComputedOrigin(pieces: Pieces, here: u32, origin: Location, p: Program, weight: Weight, limit: nat)
    decreases limit
  {
    if limit > 0 && p != [] && p[0].UniversalOrigin? then
      WithComputedOrigin(pieces, here, RelativeTo(here, p[0].junction), p[1..], weight, limit - 1)
    else if limit > 0 && p != [] && p[0].DescendOrigin? then
      var descended := Location(origin.parents, origin.interior + p[0].path);
      |descended.interior| <= MAX_JUNCTIONS
      && WithComputedOrigin(pieces, here, descended, p[1..], weight, limit - 1)
    else AllowedFrom(pieces, origin, p, weight)
  }

  predicate Barrier(pieces: Pieces, here: u32, origin: Location, program: Program, weight: Weight, credit: Weight) {
    var p := StripTopic(program);
    && !pieces.denies(p)
    && (TakeWeightCredit(weight, credit) || WithComputedOrigin(pieces, here, origin, p, weight, MAX_PREFIXES))
  }

  predicate SafeCallFilter(call: RuntimeCall) {
    call.TemplatePallet?
  }

  const NO_CREDIT := Weight(0, 0)

  predicate ChangesOrigin(i: Instruction) {
    i.UniversalOrigin? || i.DescendOrigin?
  }

  // Properties

  /** The barrier sees exactly what the sender built. */
  lemma TopicIsTransparent(p: Program, topic: seq<byte>)
    requires !EndsInTopic(p)
    ensures Route(p, topic) == p + [SetTopic(topic)] && Route(Route(p, topic), topic) == Route(p, topic)
    ensures StripTopic(Route(p, topic)) == p && StripTopic(p) == p
  {
    assert (p + [SetTopic(topic)])[..|p|] == p;
  }

  /** The number of leading instructions that change the origin. */
  function LeadingChanges(p: Program): (k: nat)
    ensures k <= |p|
  {
    if p != [] && ChangesOrigin(p[0]) then 1 + LeadingChanges(p[1..]) else 0
  }

  /** The origin after one change, unless it would have more than eight junctions. */
  function ChangedOrigin(here: u32, origin: Location, i: Instruction): Option<Location>
    requires ChangesOrigin(i)
  {
    match i
    case UniversalOrigin(j) => Some(RelativeTo(here, j))
    case DescendOrigin(path) =>
      var descended := Location(origin.parents, origin.interior + path);
      if |descended.interior| > MAX_JUNCTIONS then None else Some(descended)
  }

  /** The origin after the first `k` instructions, all of which change it. */
  function OriginAfter(here: u32, origin: Location, p: Program, k: nat): Option<Location>
    requires k <= LeadingChanges(p)
    decreases k
  {
    if k == 0 then Some(origin)
    else
      var next := ChangedOrigin(here, origin, p[0]);
      if next.None? then None else OriginAfter(here, next.value, p[1..], k - 1)
  }

  /** How many origin changes the barrier follows. */
  function Followed(p: Program, limit: nat): (k: nat)
    ensures k <= LeadingChanges(p) && k <= limit
  {
    if LeadingChanges(p) <= limit then LeadingChanges(p) else limit
  }

  lemma {:induction false} ComputedOrigin(
      pieces: Pieces, here: u32, origin: Location, p: Program, weight: Weight, limit: nat)
    ensures var k := Followed(p, limit);
            var o := OriginAfter(here, origin, p, k);
            WithComputedOrigin(pieces, here, origin, p, weight, limit) <==>
              o.Some? && AllowedFrom(pieces, o.value, p[k..], weight)
    decreases limit
  {
    if limit > 0 && p != [] && ChangesOrigin(p[0]) {
      var k := Followed(p[1..], limit - 1);
      assert Followed(p, limit) == k + 1 && p[1..][k..] == p[k + 1..];
      var next := ChangedOrigin(here, origin, p[0]);
      if next.Some? {
        ComputedOrigin(pieces, here, next.value, p[1..], weight, limit - 1);
      }
    } else {
      assert p[0..] == p;
    }
  }

  /**
   * Whatever the SDK's pieces decide: without weight credit a program gets in exactly when
   * it is not denied and the rest of it, after at most eight leading origin changes, pays or
   * may run for free from the origin it has reached under one of the runtime's two filters.
   */
  lemma NoCreditAdmission(pieces: Pieces, here: u32, origin: Location, program: Program, weight: Weight)
    requires weight.refTime > 0 || weight.proofSize > 0
    ensures var p := StripTopic(program);
            var k := Followed(p, 8);
            var o := OriginAfter(here, origin, p, k);
            Barrier(pieces, here, origin, program, weight, Weight(0, 0)) <==>
              && !pieces.denies(p) && o.Some?
              && (|| pieces.paid(o.value, p[k..], weight)
                  || pieces.unpaid(ParentOrParentsExecutivePlurality, o.value, p[k..], weight)
                  || pieces.unpaid(AllowSiblingParachains, o.value, p[k..], weight))
  {
    CreditAdmission(pieces, here, origin, program, weight, Weight(0, 0));
  }

  /** With weight credit a program that is not denied also gets in if the credit covers its weight. */
  lemma CreditAdmission(
      pieces: Pieces, here: u32, origin: Location, program: Program, weight: Weight, credit: Weight)
    ensures var p := StripTopic(program);
            var k := Followed(p, 8);
            var o := OriginAfter(here, origin, p, k);
            Barrier(pieces, here, origin, program, weight, credit) <==>
              && !pieces.denies(p)
              && (|| (credit.refTime >= weight.refTime && credit.proofSize >= weight.proofSize)
                  || (&& o.Some?
                      && (|| pieces.paid(o.value, p[k..], weight)
                          || pieces.unpaid(ParentOrParentsExecutivePlurality, o.value, p[k..], weight)
                          || pieces.unpaid(AllowSiblingParachains, o.value, p[k..], weight))))
  {
    ComputedOrigin(pieces, here, origin, StripTopic(program), weight, MAX_PREFIXES);
  }

  /** The two filters: the relay chain and its executive body, and sibling parachains. */
  lemma FilteredOrigins(origin: Location)
    ensures ParentOrParentsExecutivePlurality(origin) <==>
              origin.parents == 1 && (origin.interior == [] || origin.interior == [Plurality(Executive)])
    ensures AllowSiblingParachains(origin) <==>
              origin.parents == 1 && exists para: u32 :: origin.interior == [Parachain(para)]
  {
    if AllowSiblingParachains(origin) {
      assert origin.interior == [Parachain(origin.interior[0].id)];
    }
  }

  /**
   * With these pieces: a program that does not pay gets in exactly when no
   * reserve transfer to the relay chain is in it, however deep, it begins with at most eight
   * origin changes, and then asks for free execution from the relay chain, its executive
   * body or a sibling.
   */
  lemma FreeAdmission(here: u32, origin: Location, program: Program, weight: Weight)
    requires weight.refTime > 0 || weight.proofSize > 0
    requires var p := StripTopic(program); !AllowTopLevelPaidExecution(p[LeadingChanges(p)..], weight)
    ensures var p := StripTopic(program);
            var k := LeadingChanges(p);
            var o := OriginAfter(here, origin, p, k);
            Barrier(Documented(), here, origin, program, weight, Weight(0, 0)) <==>
              && !ReserveTransferToRelay(p) && k <= 8 && o.Some?
              && AsksForFreeExecution(p[k..], weight)
              && o.value.parents == 1
              && (|| o.value.interior == [] || o.value.interior == [Plurality(Executive)]
                  || (|o.value.interior| == 1 && o.value.interior[0].Parachain?))
  {
    NoCreditAdmission(Documented(), here, origin, program, weight);
    var p := StripTopic(program);
    var k := Followed(p, 8);
    if LeadingChanges(p) > 8 {
      ChangeAt(p, 8);
      assert p[8..][0] == p[8];
      assert !AllowTopLevelPaidExecution(p[8..], weight) && !AsksForFreeExecution(p[8..], weight);
    }
    var o := OriginAfter(here, origin, p, k);
    if o.Some? {
      DocumentedAdmits(o.value, p[k..], weight);
    }
  }

  lemma DocumentedAdmits(origin: Location, p: Program, weight: Weight)
    ensures Documented().paid(origin, p, weight) <==> AllowTopLevelPaidExecution(p, weight)
    ensures || Documented().unpaid(ParentOrParentsExecutivePlurality, origin, p, weight)
            || Documented().unpaid(AllowSiblingParachains, origin, p, weight) <==>
              && AsksForFreeExecution(p, weight) && origin.parents == 1
              && (|| origin.interior == [] || origin.interior == [Plurality(Executive)]
                  || (|origin.interior| == 1 && origin.interior[0].Parachain?))
  {
    FilteredOrigins(origin);
  }

  lemma {:induction false} ChangeAt(p: Program, i: nat)
    requires i < LeadingChanges(p)
    ensures ChangesOrigin(p[i])
  {
    if i > 0 {
      ChangeAt(p[1..], i - 1);
    }
  }

  /** A sibling that descends into itself is no longer a sibling and gets nothing for free. */
  lemma DescentEndsTrust(here: u32, para: u32, path: seq<Junction>, rest: Program, weight: Weight)
    requires weight.refTime > 0 || weight.proofSize > 0
    requires path != [] && rest != [] && rest[0].UnpaidExecution?
    ensures var sibling := Location(1, [Parachain(para)]);
            !Barrier(Documented(), here, sibling, [DescendOrigin(path)] + rest, weight, Weight(0, 0))
  {
    var p := [DescendOrigin(path)] + StripTopic(rest);
    assert StripTopic([DescendOrigin(path)] + rest) == p;
    assert p[1..] == StripTopic(rest) && LeadingChanges(p) == 1;
    FreeAdmission(here, SiblingLocation(para), [DescendOrigin(path)] + rest, weight);
    OneChange(here, SiblingLocation(para), p);
  }

  lemma OneChange(here: u32, origin: Location, p: Program)
    requires LeadingChanges(p) == 1
    ensures OriginAfter(here, origin, p, 1) == ChangedOrigin(here, origin, p[0])
  {
    var next := ChangedOrigin(here, origin, p[0]);
    if next.Some? {
      assert OriginAfter(here, next.value, p[1..], 0) == next;
    }
  }

  /**
   * A routed graduation is admitted, on any chain and for any weight, exactly from the relay
   * chain, its executive body and sibling parachains. From a sibling nothing but the
   * sibling rule lets it in.
   */
  lemma GraduationAdmission(
      here: u32, origin: Location, student: Student, owner: AccountId, topic: seq<byte>, weight: Weight)
    requires weight.refTime > 0 || weight.proofSize > 0
    ensures var program := Route(GraduationProgram(student, owner), topic);
            Barrier(Documented(), here, origin, program, weight, Weight(0, 0)) <==>
              && origin.parents == 1
              && (|| origin.interior == [] || origin.interior == [Plurality(Executive)]
                  || (|origin.interior| == 1 && origin.interior[0].Parachain?))
    ensures var p := GraduationProgram(student, owner);
            && !TakeWeightCredit(weight, NO_CREDIT) && !AllowTopLevelPaidExecution(p, weight)
            && (AllowSiblingParachains(origin) ==> !ParentOrParentsExecutivePlurality(origin))
  {
    var p := GraduationProgram(student, owner);
    TopicIsTransparent(p, topic);
    assert p[0].UnpaidExecution? && p[1].Transact? && p[0..] == p;
    FreeAdmission(here, origin, Route(p, topic), weight);
    assert OriginAfter(here, origin, p, 0) == Some(origin);
  }
}
