/**
 * What one dispatch of each call does to the pallet's storage, as a whole: either it
 * succeeds, or it reports an error and both storage and outgoing messages are as before.
 */
module PalletSpec {
  import opened Types
  import opened Lists
  import opened Xcm

  datatype Storage = Storage(
    count: u32,
    students: map<u32, Student>,
    byOwner: map<AccountId, seq<u32>>)
  {
    /** An account without an entry owns the empty list. */
    function OwnedBy(who: AccountId): seq<u32> {
      if who in byOwner then byOwner[who] else []
    }
  }

  const GENESIS := Storage(0, map[], map[])

  datatype Origin = Root | Signed(who: AccountId) | Unsigned

  datatype Error =
    | BadOrigin
    | NameTooLong
    | SurnameTooLong
    | MaxStudentsReached
    | StudentNotFound
    | NotStudentOwner
    | AlreadyGraduated
    | XcmSendFailed

  datatype DispatchResult = Ok | Err(error: Error)

  /** What the message router answers: a refusal, or the topic it stamped on the program. */
  datatype SendOutcome = Refused | Accepted(topic: seq<byte>)

  /** The choices that are not the pallet's: the router's answer and the order of `iter()`. */
  datatype Env = Env(send: SendOutcome, owners: seq<AccountId>)

  datatype Outcome = Outcome(result: DispatchResult, storage: Storage, sent: seq<Outbound>)

  function Fail(s: Storage, e: Error): Outcome {
    Outcome(Err(e), s, [])
  }

  function Done(s: Storage): Outcome {
    Outcome(Ok, s, [])
  }

  /** `student_id + 1` as the release build computes it. */
  function NextId(id: u32): u32 {
    (id + 1) % (U32_MAX + 1)
  }

  /** Stores `student` under the next id and lists that id for `owner`. */
  function Admit(s: Storage, owner: AccountId, student: Student): Outcome {
    if |s.OwnedBy(owner)| >= MAX_OWNED then Fail(s, MaxStudentsReached)
    else Done(Storage(NextId(s.count), s.students[s.count := student],
                      s.byOwner[owner := s.OwnedBy(owner) + [s.count]]))
  }

  /** Forgets student `id` and strikes it from the list of `owner`. */
  function Discharge(s: Storage, owner: AccountId, id: u32): Storage {
    Storage(s.count, s.students - {id}, s.byOwner[owner := Without(s.OwnedBy(owner), id)])
  }

  function Create(
      cfg: Config, s: Storage, origin: Origin, name: Bytes, surname: Bytes, age: u32, gender: Gender): Outcome
  {
    if !origin.Signed? then Fail(s, BadOrigin)
    else if |name| > cfg.maxNameLen then Fail(s, NameTooLong)
    else if |surname| > cfg.maxSurnameLen then Fail(s, SurnameTooLong)
    else Admit(s, origin.who, Student(name, surname, age, gender, false))
  }

  function Receive(s: Storage, origin: Origin, student: Student, newOwner: AccountId): Outcome {
    if origin.Unsigned? then Fail(s, BadOrigin) else Admit(s, newOwner, student)
  }

  /** The message that carries `student` away. */
  function Parcel(cfg: Config, student: Student, owner: AccountId, topic: seq<byte>): Outbound {
    Outbound(SiblingLocation(cfg.destinationPara), Route(GraduationProgram(student, owner), topic))
  }

  function Graduate(cfg: Config, send: SendOutcome, s: Storage, origin: Origin, id: u32): Outcome {
    if !origin.Signed? then Fail(s, BadOrigin)
    else if id !in s.OwnedBy(origin.who) then Fail(s, NotStudentOwner)
    else if id !in s.students then Fail(s, StudentNotFound)
    else if s.students[id].hasGraduated then Fail(s, AlreadyGraduated)
    else if send.Refused? then Fail(s, XcmSendFailed)
    else Outcome(Ok, Discharge(s, origin.who, id),
                 [Parcel(cfg, s.students[id].(hasGraduated := true), origin.who, send.topic)])
  }

  function Delete(s: Storage, origin: Origin, id: u32): Outcome {
    if !origin.Signed? then Fail(s, BadOrigin)
    else if id !in s.students then Fail(s, StudentNotFound)
    else if id !in s.OwnedBy(origin.who) then Fail(s, NotStudentOwner)
    else Done(Discharge(s, origin.who, id))
  }

  function Update(
      cfg: Config, s: Storage, origin: Origin, id: u32, name: Bytes, surname: Bytes, age: u32, gender: Gender): Outcome
  {
    if !origin.Signed? then Fail(s, BadOrigin)
    else if id !in s.OwnedBy(origin.who) then Fail(s, NotStudentOwner)
    else if id !in s.students then Fail(s, StudentNotFound)
    else if |name| > cfg.maxNameLen then Fail(s, NameTooLong)
    else if |surname| > cfg.maxSurnameLen then Fail(s, SurnameTooLong)
    else Done(s.(students := s.students[id := Student(name, surname, age, gender, s.students[id].hasGraduated)]))
  }

  /** The lists after a scan of `owners` that changes the first list holding `id` and stops. */
  function FirstHit(byOwner: map<AccountId, seq<u32>>, owners: seq<AccountId>, id: u32): map<AccountId, seq<u32>> {
    if owners == [] then byOwner
    else if owners[0] in byOwner && id in byOwner[owners[0]] then byOwner[owners[0] := Without(byOwner[owners[0]], id)]
    else FirstHit(byOwner, owners[1..], id)
  }

  /** The lists after striking `id` from every one of them. */
  function FullScan(byOwner: map<AccountId, seq<u32>>, id: u32): map<AccountId, seq<u32>> {
    map o | o in byOwner :: Without(byOwner[o], id)
  }

  function DeleteAny(owners: seq<AccountId>, s: Storage, origin: Origin, id: u32): Outcome {
    if origin.Unsigned? then Fail(s, BadOrigin)
    else if id !in s.students then Fail(s, StudentNotFound)
    else Done(Storage(s.count, s.students - {id}, FirstHit(s.byOwner, owners, id)))
  }

  function Dispatch(cfg: Config, env: Env, s: Storage, origin: Origin, call: Call): Outcome {
    match call
    case CreateStudent(name, surname, age, gender) => Create(cfg, s, origin, name, surname, age, gender)
    case GraduateStudent(id) => Graduate(cfg, env.send, s, origin, id)
    case DeleteStudent(id) => Delete(s, origin, id)
    case ReceiveStudent(student, newOwner) => Receive(s, origin, student, newOwner)
    case UpdateStudent(id, name, surname, age, gender) => Update(cfg, s, origin, id, name, surname, age, gender)
    case DeleteAnyStudent(id) => DeleteAny(env.owners, s, origin, id)
  }

  /** A failed dispatch changes and sends nothing; a successful one sends only if it graduates, and then once. */
  lemma AllOrNothing(cfg: Config, env: Env, s: Storage, origin: Origin, call: Call)
    ensures var o := Dispatch(cfg, env, s, origin, call);
            && (o.result.Err? ==> o.storage == s && o.sent == [])
            && |o.sent| == if call.GraduateStudent? && o.result.Ok? then 1 else 0
  {}

  /** `owners` lists each account that has an entry, once. */
  ghost predicate Enumerates(owners: seq<AccountId>, s: Storage) {
    NoDup(owners) && Elements(owners) == s.byOwner.Keys
  }

  // The scan of delete_any_student

  lemma {:induction false} FirstHitFrame(byOwner: map<AccountId, seq<u32>>, owners: seq<AccountId>, id: u32)
    ensures FirstHit(byOwner, owners, id).Keys == byOwner.Keys
    ensures FirstHit(byOwner, owners, id) == byOwner ||
            exists o :: o in byOwner && o in owners && id in byOwner[o]
                        && FirstHit(byOwner, owners, id) == byOwner[o := Without(byOwner[o], id)]
    ensures (exists o :: o in byOwner && o in owners && id in byOwner[o]) ==> FirstHit(byOwner, owners, id) != byOwner
  {
    if owners == [] {
    } else if owners[0] in byOwner && id in byOwner[owners[0]] {
      assert |Without(byOwner[owners[0]], id)| < |byOwner[owners[0]]|;
    } else {
      FirstHitFrame(byOwner, owners[1..], id);
    }
  }

  ghost predicate ListedAtMostOnce(byOwner: map<AccountId, seq<u32>>, id: u32) {
    forall o1, o2 :: o1 in byOwner && o2 in byOwner && id in byOwner[o1] && id in byOwner[o2] ==> o1 == o2
  }

  /**
   * For every iteration order, stopping at the first hit equals a full scan exactly when one
   * list at most holds the id.
   */
  lemma FirstHitIsFullScan(byOwner: map<AccountId, seq<u32>>, owners: seq<AccountId>, id: u32)
    requires Elements(owners) == byOwner.Keys
    ensures FirstHit(byOwner, owners, id) == FullScan(byOwner, id) <==> ListedAtMostOnce(byOwner, id)
  {
    if ListedAtMostOnce(byOwner, id) {
      FirstHitCovers(byOwner, owners, id);
    } else {
      FirstHitMisses(byOwner, owners, id);
    }
  }

  lemma FirstHitCovers(byOwner: map<AccountId, seq<u32>>, owners: seq<AccountId>, id: u32)
    requires Elements(owners) == byOwner.Keys && ListedAtMostOnce(byOwner, id)
    ensures FirstHit(byOwner, owners, id) == FullScan(byOwner, id)
  {
    FirstHitFrame(byOwner, owners, id);
    FullScanHits(byOwner, id);
    var first, full := FirstHit(byOwner, owners, id), FullScan(byOwner, id);
    if o :| o in byOwner && id in byOwner[o] {
      assert o in Elements(owners);
      assert first == byOwner[o := Without(byOwner[o], id)];
      forall x | x in byOwner && x != o ensures full[x] == byOwner[x] {}
      assert full == byOwner[o := Without(byOwner[o], id)];
    } else {
      assert full == byOwner;
    }
  }

  lemma FirstHitMisses(byOwner: map<AccountId, seq<u32>>, owners: seq<AccountId>, id: u32)
    requires !ListedAtMostOnce(byOwner, id)
    ensures FirstHit(byOwner, owners, id) != FullScan(byOwner, id)
  {
    FirstHitFrame(byOwner, owners, id);
    FullScanHits(byOwner, id);
    var o1, o2 :| o1 in byOwner && o2 in byOwner && id in byOwner[o1] && id in byOwner[o2] && o1 != o2;
    var first, full := FirstHit(byOwner, owners, id), FullScan(byOwner, id);
    assert first[o1] == byOwner[o1] || first[o2] == byOwner[o2];
    assert full[o1] != byOwner[o1] && full[o2] != byOwner[o2];
  }

  lemma FullScanHits(byOwner: map<AccountId, seq<u32>>, id: u32)
    ensures forall o :: o in byOwner ==> (FullScan(byOwner, id)[o] == byOwner[o] <==> id !in byOwner[o])
  {
    forall o | o in byOwner && id in byOwner[o] ensures FullScan(byOwner, id)[o] != byOwner[o] {
      assert |Without(byOwner[o], id)| < |byOwner[o]|;
    }
  }
}
