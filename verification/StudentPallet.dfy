/** The pallet as a running chain executes it: storage written step by step. */
module StudentPallet {
  import opened Types
  import opened Lists
  import opened Xcm
  import opened PalletSpec

  class Pallet {
    const cfg: Config
    var studentCount: u32
    var students: map<u32, Student>
    var studentsByOwner: map<AccountId, seq<u32>>
    /** Messages handed to the router. */
    var outbox: seq<Outbound>

    constructor (cfg: Config)
      ensures this.cfg == cfg && Contents() == GENESIS && outbox == []
      ensures studentCount == 0 && students == map[] && studentsByOwner == map[]
    {
      this.cfg := cfg;
      studentCount, students, studentsByOwner, outbox := 0, map[], map[], [];
    }

    /** The three storage items as one value. */
    ghost function Contents(): Storage
      reads this
    {
      Storage(studentCount, students, studentsByOwner)
    }

    method StudentsOf(who: AccountId) returns (list: seq<u32>)
      ensures list == Contents().OwnedBy(who)
    {
      list := if who in studentsByOwner then studentsByOwner[who] else [];
    }

    /** Appends `id` to the list of `who`, unless the list is full. */
    method TryPush(who: AccountId, id: u32) returns (r: DispatchResult)
      modifies `studentsByOwner
      ensures r == if |old(Contents()).OwnedBy(who)| >= MAX_OWNED then Err(MaxStudentsReached) else Ok
      ensures studentsByOwner ==
        if r.Ok? then old(studentsByOwner)[who := old(Contents()).OwnedBy(who) + [id]] else old(studentsByOwner)
    {
      var list := StudentsOf(who);
      if |list| >= MAX_OWNED {
        return Err(MaxStudentsReached);
      }
      studentsByOwner := studentsByOwner[who := list + [id]];
      r := Ok;
    }

    /** Strikes `id` from the list of `who`, if it is there. */
    method TrySwapRemove(who: AccountId, id: u32) returns (r: DispatchResult)
      modifies `studentsByOwner
      ensures r == if id in old(Contents()).OwnedBy(who) then Ok else Err(NotStudentOwner)
      ensures studentsByOwner ==
        if r.Ok? then old(studentsByOwner)[who := Without(old(Contents()).OwnedBy(who), id)] else old(studentsByOwner)
      ensures r.Ok? ==> FirstSwappedOut(old(Contents()).OwnedBy(who), Contents().OwnedBy(who), id)
    {
      var list := StudentsOf(who);
      var index := Position(list, id);
      if index.None? {
        return Err(NotStudentOwner);
      }
      studentsByOwner := studentsByOwner[who := SwapRemove(list, index.value)];
      WithoutSwaps(list, id);
      r := Ok;
    }

    // The six dispatchables. An admission that finds the list full leaves the record and the
    // raised counter behind: the storage layer around `Dispatch` takes them back.

    method CreateStudent(origin: Origin, name: Bytes, surname: Bytes, age: u32, gender: Gender)
      returns (r: DispatchResult)
      modifies `studentCount, `students, `studentsByOwner
      ensures var o := Create(cfg, old(Contents()), origin, name, surname, age, gender);
              r == o.result && (r != Err(MaxStudentsReached) ==> Contents() == o.storage)
      ensures r == Err(MaxStudentsReached) ==>
                && studentCount == (if old(studentCount) == 0xFFFF_FFFF then 0 else old(studentCount) + 1)
                && students == old(students)[old(studentCount) := Student(name, surname, age, gender, false)]
                && studentsByOwner == old(studentsByOwner)
    {
      if !origin.Signed? {
        return Err(BadOrigin);
      }
      if |name| > cfg.maxNameLen {
        return Err(NameTooLong);
      }
      if |surname| > cfg.maxSurnameLen {
        return Err(SurnameTooLong);
      }
      var id := studentCount;
      studentCount := NextId(id);
      students := students[id := Student(name, surname, age, gender, false)];
      r := TryPush(origin.who, id);
    }

    method GraduateStudent(env: Env, origin: Origin, id: u32) returns (r: DispatchResult)
      modifies `students, `studentsByOwner, `outbox
      ensures var o := Graduate(cfg, env.send, old(Contents()), origin, id);
              r == o.result && Contents() == o.storage && outbox == old(outbox) + o.sent
    {
      if !origin.Signed? {
        return Err(BadOrigin);
      }
      var owned := StudentsOf(origin.who);
      if id !in owned {
        return Err(NotStudentOwner);
      }
      if id !in students {
        return Err(StudentNotFound);
      }
      var student := students[id];
      if student.hasGraduated {
        return Err(AlreadyGraduated);
      }
      student := student.(hasGraduated := true);
      if env.send.Refused? {
        return Err(XcmSendFailed);
      }
      outbox := outbox + [Parcel(cfg, student, origin.who, env.send.topic)];
      r := TrySwapRemove(origin.who, id);
      if r.Err? {
        return;
      }
      students := students - {id};
    }

    method DeleteStudent(origin: Origin, id: u32) returns (r: DispatchResult)
      modifies `students, `studentsByOwner
      ensures var o := Delete(old(Contents()), origin, id);
              r == o.result && Contents() == o.storage
    {
      if !origin.Signed? {
        return Err(BadOrigin);
      }
      if id !in students {
        return Err(StudentNotFound);
      }
      r := TrySwapRemove(origin.who, id);
      if r.Err? {
        return;
      }
      students := students - {id};
    }

    method ReceiveStudent(origin: Origin, student: Student, newOwner: AccountId) returns (r: DispatchResult)
      modifies `studentCount, `students, `studentsByOwner
      ensures var o := Receive(old(Contents()), origin, student, newOwner);
              r == o.result && (r != Err(MaxStudentsReached) ==> Contents() == o.storage)
      ensures r == Err(MaxStudentsReached) ==>
                && studentCount == (if old(studentCount) == 0xFFFF_FFFF then 0 else old(studentCount) + 1)
                && students == old(students)[old(studentCount) := student]
                && studentsByOwner == old(studentsByOwner)
    {
      if origin.Unsigned? {
        return Err(BadOrigin);
      }
      var id := studentCount;
      studentCount := NextId(id);
      students := students[id := student];
      r := TryPush(newOwner, id);
    }

    method UpdateStudent(origin: Origin, id: u32, name: Bytes, surname: Bytes, age: u32, gender: Gender)
      returns (r: DispatchResult)
      modifies `students
      ensures var o := Update(cfg, old(Contents()), origin, id, name, surname, age, gender);
              r == o.result && Contents() == o.storage
    {
      if !origin.Signed? {
        return Err(BadOrigin);
      }
      var owned := StudentsOf(origin.who);
      if id !in owned {
        return Err(NotStudentOwner);
      }
      if id !in students {
        return Err(StudentNotFound);
      }
      var student := students[id];
      if |name| > cfg.maxNameLen {
        return Err(NameTooLong);
      }
      if |surname| > cfg.maxSurnameLen {
        return Err(SurnameTooLong);
      }
      student := student.(name := name, surname := surname, age := age, gender := gender);
      students := students[id := student];
      r := Ok;
    }

    /** `owners` is the order in which `StudentsByOwner::iter()` yields the accounts. */
    method DeleteAnyStudent(owners: seq<AccountId>, origin: Origin, id: u32) returns (r: DispatchResult)
      modifies `students, `studentsByOwner
      ensures var o := DeleteAny(owners, old(Contents()), origin, id);
              r == o.result && Contents() == o.storage
    {
      if origin.Unsigned? {
        return Err(BadOrigin);
      }
      if id !in students {
        return Err(StudentNotFound);
      }
      students := students - {id};
      ghost var was := studentsByOwner;
      assert owners[0..] == owners;
      for i := 0 to |owners|
        invariant students == old(students) - {id} && studentsByOwner == was
        invariant FirstHit(was, owners, id) == FirstHit(was, owners[i..], id)
      {
        assert owners[i..][1..] == owners[i + 1..];
        if owners[i] in studentsByOwner {
          var list := studentsByOwner[owners[i]];
          var index := Position(list, id);
          if index.Some? {
            list := SwapRemove(list, index.value);
            studentsByOwner := studentsByOwner[owners[i] := list];
            break;
          }
        }
      }
      r := Ok;
    }

    /** A dispatch runs in a storage layer: an error restores storage and outbox. */
    method Dispatch(env: Env, origin: Origin, call: Call) returns (r: DispatchResult)
      modifies this
      ensures var o := PalletSpec.Dispatch(cfg, env, old(Contents()), origin, call);
              r == o.result && Contents() == o.storage && outbox == old(outbox) + o.sent
    {
      var savedCount, savedStudents, savedByOwner, savedOutbox := studentCount, students, studentsByOwner, outbox;
      match call {
        case CreateStudent(name, surname, age, gender) => r := CreateStudent(origin, name, surname, age, gender);
        case GraduateStudent(id) => r := GraduateStudent(env, origin, id);
        case DeleteStudent(id) => r := DeleteStudent(origin, id);
        case ReceiveStudent(student, newOwner) => r := ReceiveStudent(origin, student, newOwner);
        case UpdateStudent(id, name, surname, age, gender) =>
          r := UpdateStudent(origin, id, name, surname, age, gender);
        case DeleteAnyStudent(id) => r := DeleteAnyStudent(env.owners, origin, id);
      }
      AllOrNothing(cfg, env, old(Contents()), origin, call);
      if r.Err? {
        studentCount, students, studentsByOwner, outbox := savedCount, savedStudents, savedByOwner, savedOutbox;
      }
    }
  }
}
