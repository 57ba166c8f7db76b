/** The invariant of the pallet's storage, and exactly when a dispatch keeps it. */
module Consistency {
  import opened Types
  import opened Lists
  import opened PalletSpec
  import opened Registry

  /** No id that the counter will still hand out is in use. */
  ghost predicate IdsBelowCount(s: Storage) {
    forall id :: id in s.students ==> id < s.count
  }

  ghost predicate Bounded(cfg: Config, s: Storage) {
    forall id :: id in s.students ==> s.students[id].Fits(cfg)
  }

  ghost predicate Invariant(cfg: Config, s: Storage) {
    Agreement(s) && IdsBelowCount(s) && Bounded(cfg, s)
  }

  /** The account that a call would give a new student to, once its other checks have passed. */
  function Admits(cfg: Config, origin: Origin, call: Call): Option<AccountId> {
    match call
    case CreateStudent(name, surname, _, _) =>
      if origin.Signed? && |name| <= cfg.maxNameLen && |surname| <= cfg.maxSurnameLen then Some(origin.who) else None
    case ReceiveStudent(_, newOwner) => if origin.Unsigned? then None else Some(newOwner)
    case _ => None
  }

  /** Will this call be given the next id? Decided before the call, from the storage it finds. */
  predicate WillAdmit(cfg: Config, s: Storage, origin: Origin, call: Call) {
    var who := Admits(cfg, origin, call);
    who.Some? && |s.OwnedBy(who.value)| < MAX_OWNED
  }

  /** Will this call be given the last of the 2^32 ids, after which the counter is back at 0? */
  predicate WrapsCounter(cfg: Config, s: Storage, origin: Origin, call: Call) {
    WillAdmit(cfg, s, origin, call) && s.count == U32_MAX
  }

  lemma AdmissionForeseen(cfg: Config, env: Env, s: Storage, origin: Origin, call: Call)
    ensures WillAdmit(cfg, s, origin, call) <==>
              call.Allocates() && Dispatch(cfg, env, s, origin, call).result.Ok?
  {}

  lemma GenesisInvariant(cfg: Config)
    ensures Invariant(cfg, GENESIS)
  {}

  /** Handing out a live id lists it twice. */
  lemma AdmitClash(s: Storage, owner: AccountId, student: Student)
    requires Agreement(s) && s.count in s.students && Admit(s, owner, student).result.Ok?
    ensures !Agreement(Admit(s, owner, student).storage)
  {
    var id, o, s' := s.count, OwnerOf(s, s.count), Admit(s, owner, student).storage;
    assert id in s'.byOwner[owner] && id in s.OwnedBy(o);
    if o == owner {
      var list := s'.byOwner[owner];
      var i :| 0 <= i < |s.OwnedBy(o)| && s.OwnedBy(o)[i] == id;
      assert list[i] == list[|list| - 1] && i < |list| - 1;
      assert !NoDup(list);
    } else {
      assert id in s'.byOwner[o];
      assert !ListedAtMostOnce(s'.byOwner, id);
    }
  }

  /** Index agreement survives a dispatch unless it hands out an id that is live. */
  lemma AgreementKeptExactly(cfg: Config, env: Env, s: Storage, origin: Origin, call: Call)
    requires Agreement(s) && Enumerates(env.owners, s)
    ensures var o := Dispatch(cfg, env, s, origin, call);
            Agreement(o.storage) <==> !(WillAdmit(cfg, s, origin, call) && s.count in s.students)
  {
    var o := Dispatch(cfg, env, s, origin, call);
    AdmissionForeseen(cfg, env, s, origin, call);
    if call.Allocates() && s.count in s.students {
      if o.result.Ok? {
        match call
        case CreateStudent(name, surname, age, gender) =>
          AdmitClash(s, origin.who, Student(name, surname, age, gender, false));
        case ReceiveStudent(student, newOwner) => AdmitClash(s, newOwner, student);
      }
    } else {
      PalletRefinesRegistry(cfg, env, s, origin, call);
    }
  }

  /** What one dispatch can do to the set of live ids and to the counter. */
  lemma DispatchFrame(cfg: Config, env: Env, s: Storage, origin: Origin, call: Call)
    ensures var o := Dispatch(cfg, env, s, origin, call);
            && (o.result.Err? ==> o.storage == s)
            && (o.result.Ok? && call.Allocates() ==>
                  && o.storage.students.Keys == s.students.Keys + {s.count} && o.storage.count == NextId(s.count)
                  && forall id :: id in s.students && id != s.count ==> o.storage.students[id] == s.students[id])
            && (!call.Allocates() ==> o.storage.count == s.count)
            && (o.result.Ok? && (call.GraduateStudent? || call.DeleteStudent? || call.DeleteAnyStudent?) ==>
                  call.id in s.students && o.storage.students == s.students - {call.id})
            && (o.result.Ok? && call.UpdateStudent? ==>
                  && call.id in s.students && o.storage.students.Keys == s.students.Keys
                  && (forall id :: id in s.students && id != call.id ==> o.storage.students[id] == s.students[id])
                  && o.storage.students[call.id].hasGraduated == s.students[call.id].hasGraduated)
  {}

  lemma BoundedKept(cfg: Config, env: Env, s: Storage, origin: Origin, call: Call)
    requires Bounded(cfg, s) && call.WellTyped(cfg)
    ensures Bounded(cfg, Dispatch(cfg, env, s, origin, call).storage)
  {}

  /** An admission under a fresh id adds exactly one entry to the registry. */
  lemma AdmitAddsEntry(s: Storage, owner: AccountId, student: Student)
    requires Agreement(s) && s.count !in s.students
    ensures var o := Admit(s, owner, student);
            && Agreement(o.storage)
            && (o.result.Ok? ==>
                  Abs(o.storage) == Registry(NextId(s.count), Abs(s).live[s.count := Entry(owner, student)]))
  {
    AbsRepresents(s);
    AdmitRefines(s, Abs(s), owner, student);
    RepresentsIsAbs(Admit(s, owner, student).storage, Enrol(Abs(s), Entry(owner, student)).registry);
  }

  lemma AdmitKeepsInvariant(cfg: Config, s: Storage, owner: AccountId, student: Student)
    requires Invariant(cfg, s) && s.count < U32_MAX && student.Fits(cfg)
    ensures Invariant(cfg, Admit(s, owner, student).storage)
  {
    AdmitAddsEntry(s, owner, student);
    AdmitKeepsBounds(cfg, s, owner, student);
  }

  lemma AdmitKeepsBounds(cfg: Config, s: Storage, owner: AccountId, student: Student)
    requires IdsBelowCount(s) && Bounded(cfg, s) && s.count < U32_MAX && student.Fits(cfg)
    ensures IdsBelowCount(Admit(s, owner, student).storage) && Bounded(cfg, Admit(s, owner, student).storage)
  {}

  lemma CounterStep(s: Storage, s': Storage, admits: bool)
    requires IdsBelowCount(s)
    requires admits ==> s'.students.Keys == s.students.Keys + {s.count} && s'.count == NextId(s.count)
    requires !admits ==> s'.students.Keys <= s.students.Keys && s'.count == s.count
    ensures IdsBelowCount(s') <==> !(admits && s.count == U32_MAX)
  {
    if admits && s.count == U32_MAX {
      assert s.count in s'.students.Keys && s'.count == 0;
    } else {
      forall id | id in s'.students ensures id < s'.count {
        assert id in s'.students.Keys;
      }
    }
  }

  lemma CounterKeptExactly(cfg: Config, env: Env, s: Storage, origin: Origin, call: Call)
    requires IdsBelowCount(s)
    ensures IdsBelowCount(Dispatch(cfg, env, s, origin, call).storage) <==> !WrapsCounter(cfg, s, origin, call)
  {
    AdmissionForeseen(cfg, env, s, origin, call);
    DispatchFrame(cfg, env, s, origin, call);
    CounterStep(s, Dispatch(cfg, env, s, origin, call).storage, WillAdmit(cfg, s, origin, call));
  }

  /**
   * Every dispatch, successful or rolled back, keeps the invariant, except one that hands
   * out the last id of the 32-bit range.
   */
  lemma InvariantKeptExactly(cfg: Config, env: Env, s: Storage, origin: Origin, call: Call)
    requires Invariant(cfg, s) && Enumerates(env.owners, s) && call.WellTyped(cfg)
    ensures var o := Dispatch(cfg, env, s, origin, call);
            Invariant(cfg, o.storage) <==> !WrapsCounter(cfg, s, origin, call)
  {
    assert s.count !in s.students;
    AgreementKeptExactly(cfg, env, s, origin, call);
    CounterKeptExactly(cfg, env, s, origin, call);
    BoundedKept(cfg, env, s, origin, call);
  }

  /** What the wrap costs: the next student takes id 0 from whoever still has it. */
  lemma WrapOverwritesStudent(
      cfg: Config, env: Env, s: Storage, origin: Origin, call: Call, next: AccountId, student: Student)
    requires Invariant(cfg, s) && Enumerates(env.owners, s) && 0 in s.students
    requires WrapsCounter(cfg, s, origin, call)
    requires Admit(Dispatch(cfg, env, s, origin, call).storage, next, student).result.Ok?
    ensures var s' := Admit(Dispatch(cfg, env, s, origin, call).storage, next, student).storage;
            s'.students[0] == student && !Agreement(s')
  {
    var s1 := Dispatch(cfg, env, s, origin, call).storage;
    assert s.count !in s.students;
    AdmissionForeseen(cfg, env, s, origin, call);
    AgreementKeptExactly(cfg, env, s, origin, call);
    DispatchFrame(cfg, env, s, origin, call);
    AdmitClash(s1, next, student);
  }

  /** A storage on which that happens: one student with id 0, and the counter at its maximum. */
  lemma WrapExample(cfg: Config, alice: AccountId, bob: AccountId)
    requires alice != bob
    ensures var zoe := Student([], [], 20, Female, false);
            var s := Storage(U32_MAX, map[0 := zoe], map[alice := [0]]);
            var s1 := Create(cfg, s, Signed(bob), [], [], 30, Male).storage;
            var s2 := Create(cfg, s1, Signed(bob), [], [], 40, Male).storage;
            Invariant(cfg, s) && s2.students[0].age == 40 && s2.OwnedBy(alice) == [0] && s2.OwnedBy(bob) == [U32_MAX, 0]
  {
    var zoe := Student([], [], 20, Female, false);
    var s := Storage(U32_MAX, map[0 := zoe], map[alice := [0]]);
    assert 0 in s.byOwner[alice];
    assert Agreement(s);
  }

  // Counting

  function ListLengths(s: Storage, owners: seq<AccountId>): nat {
    if owners == [] then 0 else |s.OwnedBy(owners[0])| + ListLengths(s, owners[1..])
  }

  ghost function Listed(s: Storage, owners: seq<AccountId>): set<u32> {
    if owners == [] then {} else Elements(s.OwnedBy(owners[0])) + Listed(s, owners[1..])
  }

  lemma {:induction false} ListedBySomeone(s: Storage, owners: seq<AccountId>, id: u32)
    ensures id in Listed(s, owners) <==> exists o :: o in owners && id in s.OwnedBy(o)
  {
    if owners != [] {
      ListedBySomeone(s, owners[1..], id);
      assert owners[0] in owners;
    }
  }

  lemma {:induction false} ListedSize(s: Storage, owners: seq<AccountId>)
    requires Agreement(s) && NoDup(owners)
    ensures |Listed(s, owners)| == ListLengths(s, owners)
  {
    if owners != [] {
      var o, rest := owners[0], owners[1..];
      ListedSize(s, rest);
      NoDupCardinality(s.OwnedBy(o));
      forall id | id in Elements(s.OwnedBy(o)) ensures id !in Listed(s, rest) {
        ListedBySomeone(s, rest, id);
        assert ListedAtMostOnce(s.byOwner, id);
      }
    }
  }

  /** There are as many records as entries in the owners' lists, counted in any order. */
  lemma RecordsAreListEntries(s: Storage, owners: seq<AccountId>)
    requires Agreement(s) && Enumerates(owners, s)
    ensures |s.students| == ListLengths(s, owners)
  {
    ListedSize(s, owners);
    forall id ensures id in Listed(s, owners) <==> id in s.students {
      ListedBySomeone(s, owners, id);
      if id in s.students {
        assert OwnerOf(s, id) in Elements(owners);
      }
    }
    assert Listed(s, owners) == s.students.Keys;
  }

  lemma AdmissionRefusedExactly(s: Storage, owner: AccountId, student: Student)
    requires Agreement(s)
    ensures Admit(s, owner, student).result ==
              if |Abs(s).Owned(owner)| == MAX_OWNED then Err(MaxStudentsReached) else Ok
  {
    AbsRepresents(s);
    assert ListFor(s, Abs(s), owner);
    OwnedSize(s, Abs(s), owner);
  }

  /** The capacity error comes exactly when the earlier checks pass and the account has 100 live students. */
  lemma CapacityErrorExactly(cfg: Config, env: Env, s: Storage, origin: Origin, call: Call)
    requires Agreement(s)
    ensures var who := Admits(cfg, origin, call);
            Dispatch(cfg, env, s, origin, call).result == Err(MaxStudentsReached) <==>
              who.Some? && |Abs(s).Owned(who.value)| == MAX_OWNED
  {
    match call
    case CreateStudent(name, surname, age, gender) =>
      if origin.Signed? {
        AdmissionRefusedExactly(s, origin.who, Student(name, surname, age, gender, false));
      }
    case ReceiveStudent(student, newOwner) => AdmissionRefusedExactly(s, newOwner, student);
    case _ =>
  }

  // Graduation

  /**
   * A graduation either changes nothing and reports why, or sends one message and removes
   * exactly the caller's own, not yet graduated student. Neither graduation nor update ever
   * finds a listed student missing.
   */
  lemma GraduationIsAllOrNothing(cfg: Config, env: Env, s: Storage, who: AccountId, id: u32)
    requires Agreement(s) && Enumerates(env.owners, s)
    ensures var g, o := Abs(s), Dispatch(cfg, env, s, Signed(who), GraduateStudent(id));
            && o.result == (if !g.Owns(who, id) then Err(NotStudentOwner)
                            else if g.live[id].student.hasGraduated then Err(AlreadyGraduated)
                            else if env.send.Refused? then Err(XcmSendFailed)
                            else Ok)
            && (o.result.Err? ==> o.storage == s && o.sent == [])
            && (o.result.Ok? ==>
                  && Agreement(o.storage) && Abs(o.storage) == g.(live := g.live - {id})
                  && o.sent == [Parcel(cfg, g.live[id].student.(hasGraduated := true), who, env.send.topic)])
  {
    PalletRefinesRegistry(cfg, env, s, Signed(who), GraduateStudent(id));
  }

  lemma ListedStudentsExist(cfg: Config, env: Env, s: Storage, origin: Origin, call: Call)
    requires Agreement(s) && (call.GraduateStudent? || call.UpdateStudent?)
    ensures Dispatch(cfg, env, s, origin, call).result != Err(StudentNotFound)
  {}
}
