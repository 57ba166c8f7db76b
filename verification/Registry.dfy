/**
 * The pallet without its data layout: one map from ids to owner and record.
 * Neither the two maps of the source nor the order inside an owner's list shows here.
 */
module Registry {
  import opened Types
  import opened Lists
  import opened PalletSpec
  import opened Xcm

  datatype Entry = Entry(owner: AccountId, student: Student)

  datatype Registry = Registry(next: u32, live: map<u32, Entry>) {
    /** The live students of an account. */
    function Owned(who: AccountId): set<u32> {
      set id | id in live && live[id].owner == who
    }

    predicate Owns(who: AccountId, id: u32) {
      id in live && live[id].owner == who
    }
  }

  datatype RegistryOutcome = RegistryOutcome(result: DispatchResult, registry: Registry, sent: seq<Outbound>)

  function Reject(g: Registry, e: Error): RegistryOutcome {
    RegistryOutcome(Err(e), g, [])
  }

  function Enrol(g: Registry, entry: Entry): RegistryOutcome {
    if |g.Owned(entry.owner)| >= MAX_OWNED then Reject(g, MaxStudentsReached)
    else RegistryOutcome(Ok, Registry(NextId(g.next), g.live[g.next := entry]), [])
  }

  function Removed(g: Registry, id: u32): Registry {
    g.(live := g.live - {id})
  }

  /** One dispatch on the abstract registry; errors in the order of the source's checks. */
  function Apply(cfg: Config, send: SendOutcome, g: Registry, origin: Origin, call: Call): RegistryOutcome {
    if origin.Unsigned? || (origin.Root? && !call.ReceiveStudent? && !call.DeleteAnyStudent?) then
      Reject(g, BadOrigin)
    else
      match call
      case CreateStudent(name, surname, age, gender) =>
        if |name| > cfg.maxNameLen then Reject(g, NameTooLong)
        else if |surname| > cfg.maxSurnameLen then Reject(g, SurnameTooLong)
        else Enrol(g, Entry(origin.who, Student(name, surname, age, gender, false)))
      case ReceiveStudent(student, newOwner) => Enrol(g, Entry(newOwner, student))
      case GraduateStudent(id) =>
        if !g.Owns(origin.who, id) then Reject(g, NotStudentOwner)
        else if g.live[id].student.hasGraduated then Reject(g, AlreadyGraduated)
        else if send.Refused? then Reject(g, XcmSendFailed)
        else RegistryOutcome(Ok, Removed(g, id),
                             [Parcel(cfg, g.live[id].student.(hasGraduated := true), origin.who, send.topic)])
      case DeleteStudent(id) =>
        if id !in g.live then Reject(g, StudentNotFound)
        else if !g.Owns(origin.who, id) then Reject(g, NotStudentOwner)
        else RegistryOutcome(Ok, Removed(g, id), [])
      case UpdateStudent(id, name, surname, age, gender) =>
        if !g.Owns(origin.who, id) then Reject(g, NotStudentOwner)
        else if |name| > cfg.maxNameLen then Reject(g, NameTooLong)
        else if |surname| > cfg.maxSurnameLen then Reject(g, SurnameTooLong)
        else
          var updated := Student(name, surname, age, gender, g.live[id].student.hasGraduated);
          RegistryOutcome(Ok, g.(live := g.live[id := g.live[id].(student := updated)]), [])
      case DeleteAnyStudent(id) =>
        if id !in g.live then Reject(g, StudentNotFound)
        else RegistryOutcome(Ok, Removed(g, id), [])
  }

  // The storage invariant and the abstraction

  /** The two maps are inverse to each other and every list obeys its capacity. */
  ghost predicate Agreement(s: Storage) {
    && (forall o :: o in s.byOwner ==> NoDup(s.byOwner[o]) && |s.byOwner[o]| <= MAX_OWNED)
    && (forall o, id :: o in s.byOwner && id in s.byOwner[o] ==> id in s.students)
    && (forall id :: id in s.students ==> exists o :: o in s.byOwner && id in s.byOwner[o])
    && (forall id :: ListedAtMostOnce(s.byOwner, id))
  }

  ghost function OwnerOf(s: Storage, id: u32): (o: AccountId)
    requires Agreement(s) && id in s.students
    ensures id in s.OwnedBy(o)
  {
    var o :| o in s.byOwner && id in s.byOwner[o];
    o
  }

  /** The registry a consistent storage stands for. */
  ghost function Abs(s: Storage): Registry
    requires Agreement(s)
  {
    Registry(s.count, map id | id in s.students :: Entry(OwnerOf(s, id), s.students[id]))
  }

  /** `s` stores `g`: a characterisation of `Abs` that does not choose owners. */
  ghost predicate Represents(s: Storage, g: Registry) {
    && s.count == g.next
    && s.students.Keys == g.live.Keys
    && (forall id :: id in s.students ==> g.live[id].student == s.students[id])
    && (forall o: AccountId :: ListFor(s, g, o))
  }

  ghost predicate ListFor(s: Storage, g: Registry, o: AccountId) {
    && NoDup(s.OwnedBy(o)) && |s.OwnedBy(o)| <= MAX_OWNED
    && (forall id :: id in s.OwnedBy(o) <==> g.Owns(o, id))
  }

  lemma AbsRepresents(s: Storage)
    requires Agreement(s)
    ensures Represents(s, Abs(s))
  {
    var g := Abs(s);
    forall o: AccountId ensures ListFor(s, g, o) {
      forall id ensures id in s.OwnedBy(o) <==> g.Owns(o, id) {
        if id in s.OwnedBy(o) {
          assert ListedAtMostOnce(s.byOwner, id);
        }
      }
    }
  }

  lemma RepresentsAgrees(s: Storage, g: Registry)
    requires Represents(s, g)
    ensures Agreement(s)
  {
    assert forall o :: o in s.byOwner ==> ListFor(s, g, o);
    forall id | id in s.students ensures exists o :: o in s.byOwner && id in s.byOwner[o] {
      OwnerLists(s, g, id);
    }
    forall id ensures ListedAtMostOnce(s.byOwner, id) {
      OnlyOwnerLists(s, g, id);
    }
  }

  lemma OwnerLists(s: Storage, g: Registry, id: u32)
    requires Represents(s, g) && id in s.students
    ensures g.live[id].owner in s.byOwner && id in s.byOwner[g.live[id].owner]
  {
    var o := g.live[id].owner;
    assert ListFor(s, g, o) && g.Owns(o, id);
  }

  lemma OnlyOwnerLists(s: Storage, g: Registry, id: u32)
    requires Represents(s, g)
    ensures ListedAtMostOnce(s.byOwner, id)
  {
    forall o | o in s.byOwner && id in s.byOwner[o] ensures g.Owns(o, id) {
      assert ListFor(s, g, o);
    }
  }

  lemma RepresentsIsAbs(s: Storage, g: Registry)
    requires Represents(s, g)
    ensures Agreement(s) && g == Abs(s)
  {
    RepresentsAgrees(s, g);
    forall id | id in s.students ensures Abs(s).live[id] == g.live[id] {
      assert ListFor(s, g, OwnerOf(s, id));
    }
    assert Abs(s).live == g.live;
  }

  lemma OwnedSize(s: Storage, g: Registry, o: AccountId)
    requires ListFor(s, g, o)
    ensures |g.Owned(o)| == |s.OwnedBy(o)|
  {
    NoDupCardinality(s.OwnedBy(o));
    assert Elements(s.OwnedBy(o)) == g.Owned(o);
  }

  // Refinement, operation by operation

  lemma AdmitRefines(s: Storage, g: Registry, owner: AccountId, student: Student)
    requires Represents(s, g) && s.count !in s.students
    ensures var o, a := Admit(s, owner, student), Enrol(g, Entry(owner, student));
            o.result == a.result && o.sent == a.sent && Represents(o.storage, a.registry)
  {
    assert ListFor(s, g, owner);
    OwnedSize(s, g, owner);
    var o, a := Admit(s, owner, student), Enrol(g, Entry(owner, student));
    if o.result.Ok? {
      assert !g.Owns(owner, s.count);
      forall w: AccountId ensures ListFor(o.storage, a.registry, w) {
        assert ListFor(s, g, w);
      }
    }
  }

  lemma DischargeRefines(s: Storage, g: Registry, owner: AccountId, id: u32)
    requires Represents(s, g) && g.Owns(owner, id)
    ensures Represents(Discharge(s, owner, id), Removed(g, id))
  {
    assert ListFor(s, g, owner);
    forall w: AccountId ensures ListFor(Discharge(s, owner, id), Removed(g, id), w) {
      assert ListFor(s, g, w);
      WithoutExactly(s.OwnedBy(owner), id);
    }
  }

  /** The scan of the admin deletion finds the owner's list, whatever the order. */
  lemma ScanIsDischarge(s: Storage, g: Registry, owners: seq<AccountId>, id: u32)
    requires Represents(s, g) && id in g.live && Enumerates(owners, s)
    ensures FirstHit(s.byOwner, owners, id) == s.byOwner[g.live[id].owner := Without(s.OwnedBy(g.live[id].owner), id)]
  {
    var owner := g.live[id].owner;
    assert ListFor(s, g, owner) && g.Owns(owner, id);
    assert owner in s.byOwner.Keys && owner in Elements(owners);
    FirstHitFrame(s.byOwner, owners, id);
    var o :| && o in s.byOwner && id in s.byOwner[o]
             && FirstHit(s.byOwner, owners, id) == s.byOwner[o := Without(s.byOwner[o], id)];
    assert ListFor(s, g, o);
  }

  lemma UpdateRefines(s: Storage, g: Registry, id: u32, student: Student)
    requires Represents(s, g) && id in g.live
    ensures Represents(s.(students := s.students[id := student]),
                       g.(live := g.live[id := g.live[id].(student := student)]))
  {
    var s', g' := s.(students := s.students[id := student]), g.(live := g.live[id := g.live[id].(student := student)]);
    forall w: AccountId ensures ListFor(s', g', w) {
      assert ListFor(s, g, w);
    }
  }

  /** On a storage that stores `g` the dispatch does what the registry prescribes. */
  ghost predicate Refines(cfg: Config, env: Env, s: Storage, g: Registry, origin: Origin, call: Call) {
    var o, a := Dispatch(cfg, env, s, origin, call), Apply(cfg, env.send, g, origin, call);
    o.result == a.result && o.sent == a.sent && Represents(o.storage, a.registry)
  }

  lemma CreateRefines(cfg: Config, env: Env, s: Storage, g: Registry, origin: Origin, call: Call)
    requires Represents(s, g) && call.CreateStudent? && s.count !in s.students
    ensures Refines(cfg, env, s, g, origin, call)
  {
    if origin.Signed? {
      AdmitRefines(s, g, origin.who, Student(call.name, call.surname, call.age, call.gender, false));
    }
  }

  lemma GraduateRefines(cfg: Config, env: Env, s: Storage, g: Registry, origin: Origin, call: Call)
    requires Represents(s, g) && call.GraduateStudent?
    ensures Refines(cfg, env, s, g, origin, call)
  {
    if origin.Signed? {
      assert ListFor(s, g, origin.who);
      if g.Owns(origin.who, call.id) {
        DischargeRefines(s, g, origin.who, call.id);
      }
    }
  }

  lemma DeleteRefines(cfg: Config, env: Env, s: Storage, g: Registry, origin: Origin, call: Call)
    requires Represents(s, g) && call.DeleteStudent?
    ensures Refines(cfg, env, s, g, origin, call)
  {
    if origin.Signed? {
      assert ListFor(s, g, origin.who);
      if g.Owns(origin.who, call.id) {
        DischargeRefines(s, g, origin.who, call.id);
      }
    }
  }

  lemma UpdateCallRefines(cfg: Config, env: Env, s: Storage, g: Registry, origin: Origin, call: Call)
    requires Represents(s, g) && call.UpdateStudent?
    ensures Refines(cfg, env, s, g, origin, call)
  {
    if origin.Signed? {
      assert ListFor(s, g, origin.who);
      if g.Owns(origin.who, call.id) {
        var graduated := s.students[call.id].hasGraduated;
        UpdateRefines(s, g, call.id, Student(call.name, call.surname, call.age, call.gender, graduated));
      }
    }
  }

  lemma AdminRefines(cfg: Config, env: Env, s: Storage, g: Registry, origin: Origin, call: Call)
    requires Represents(s, g) && Enumerates(env.owners, s) && call.DeleteAnyStudent?
    ensures Refines(cfg, env, s, g, origin, call)
  {
    if call.id in g.live {
      ScanIsDischarge(s, g, env.owners, call.id);
      DischargeRefines(s, g, g.live[call.id].owner, call.id);
    }
  }

  lemma DispatchRefines(cfg: Config, env: Env, s: Storage, g: Registry, origin: Origin, call: Call)
    requires Represents(s, g) && Enumerates(env.owners, s)
    requires call.Allocates() ==> s.count !in s.students
    ensures Refines(cfg, env, s, g, origin, call)
  {
    match call
    case CreateStudent(_, _, _, _) => CreateRefines(cfg, env, s, g, origin, call);
    case ReceiveStudent(student, newOwner) => AdmitRefines(s, g, newOwner, student);
    case UpdateStudent(_, _, _, _, _) => UpdateCallRefines(cfg, env, s, g, origin, call);
    case DeleteAnyStudent(_) => AdminRefines(cfg, env, s, g, origin, call);
    case GraduateStudent(_) => GraduateRefines(cfg, env, s, g, origin, call);
    case DeleteStudent(_) => DeleteRefines(cfg, env, s, g, origin, call);
  }

  /**
   * Every dispatch on a consistent storage returns the result and messages the registry
   * prescribes and stores the registry it prescribes, for every iteration order. The only
   * thing asked is that an allocation does not meet a live id.
   */
  lemma PalletRefinesRegistry(cfg: Config, env: Env, s: Storage, origin: Origin, call: Call)
    requires Agreement(s) && Enumerates(env.owners, s)
    requires call.Allocates() ==> s.count !in s.students
    ensures var o, a := Dispatch(cfg, env, s, origin, call), Apply(cfg, env.send, Abs(s), origin, call);
            && o.result == a.result && o.sent == a.sent
            && Agreement(o.storage) && Abs(o.storage) == a.registry
  {
    AbsRepresents(s);
    DispatchRefines(cfg, env, s, Abs(s), origin, call);
    var o, a := Dispatch(cfg, env, s, origin, call), Apply(cfg, env.send, Abs(s), origin, call);
    RepresentsIsAbs(o.storage, a.registry);
  }
}
