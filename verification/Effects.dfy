/**
 * What each call reports and does, in terms of single fields, list positions and numbers.
 * Nothing here refers to the operations by which `PalletSpec` computes it.
 */
module Effects {
  import opened Types
  import opened Lists
  import opened Scale
  import opened Xcm
  import opened PalletSpec

  /** No record but that of `id` has changed. */
  ghost predicate OthersKept(s: Storage, s': Storage, id: u32) {
    forall k: u32 :: k != id ==>
      (k in s.students <==> k in s'.students) && (k in s.students ==> s'.students[k] == s.students[k])
  }

  /** No list but that of `who` has changed. */
  ghost predicate OtherListsKept(s: Storage, s': Storage, who: AccountId) {
    forall w: AccountId :: w != who ==> s'.OwnedBy(w) == s.OwnedBy(w)
  }

  /** `student` is stored under the old counter and listed last for `who`; nothing else has changed. */
  ghost predicate IsAdmitted(s: Storage, s': Storage, who: AccountId, student: Student) {
    && s.count in s'.students && s'.students[s.count] == student && OthersKept(s, s', s.count)
    && s'.OwnedBy(who) == s.OwnedBy(who) + [s.count] && OtherListsKept(s, s', who)
    && s'.count == if s.count == 0xFFFF_FFFF then 0 else s.count + 1
  }

  /** Student `id` is gone and the first `id` in the list of `who` swapped out; nothing else has changed. */
  ghost predicate IsDischarged(s: Storage, s': Storage, who: AccountId, id: u32) {
    && id !in s'.students && OthersKept(s, s', id)
    && FirstSwappedOut(s.OwnedBy(who), s'.OwnedBy(who), id) && OtherListsKept(s, s', who)
    && s'.count == s.count
  }

  lemma AdmitEffect(s: Storage, who: AccountId, student: Student)
    ensures var o := Admit(s, who, student);
            && (o.result == Ok <==> |s.OwnedBy(who)| < 100)
            && (o.result != Ok ==> o.result == Err(MaxStudentsReached))
            && (o.result == Ok ==> IsAdmitted(s, o.storage, who, student)) && o.sent == []
  {}

  lemma DischargeEffect(s: Storage, who: AccountId, id: u32)
    requires id in s.OwnedBy(who)
    ensures IsDischarged(s, Discharge(s, who, id), who, id)
  {
    WithoutSwaps(s.OwnedBy(who), id);
  }

  lemma CreateEffect(
      cfg: Config, env: Env, s: Storage, origin: Origin, name: Bytes, surname: Bytes, age: u32, gender: Gender)
    ensures var o := Dispatch(cfg, env, s, origin, CreateStudent(name, surname, age, gender));
            && (o.result == Err(BadOrigin) <==> !origin.Signed?)
            && (o.result == Err(NameTooLong) <==> origin.Signed? && |name| > cfg.maxNameLen)
            && (o.result == Err(SurnameTooLong) <==>
                  origin.Signed? && |name| <= cfg.maxNameLen && |surname| > cfg.maxSurnameLen)
            && (o.result == Err(MaxStudentsReached) <==>
                  origin.Signed? && |name| <= cfg.maxNameLen && |surname| <= cfg.maxSurnameLen
                  && |s.OwnedBy(origin.who)| >= 100)
            && (o.result == Ok <==>
                  origin.Signed? && |name| <= cfg.maxNameLen && |surname| <= cfg.maxSurnameLen
                  && |s.OwnedBy(origin.who)| < 100)
            && (o.result == Ok ==>
                  IsAdmitted(s, o.storage, origin.who, Student(name, surname, age, gender, false)) && o.sent == [])
  {
    if origin.Signed? {
      AdmitEffect(s, origin.who, Student(name, surname, age, gender, false));
    }
  }

  lemma ReceiveEffect(cfg: Config, env: Env, s: Storage, origin: Origin, student: Student, newOwner: AccountId)
    ensures var o := Dispatch(cfg, env, s, origin, ReceiveStudent(student, newOwner));
            && (o.result == Err(BadOrigin) <==> origin == Unsigned)
            && (o.result == Err(MaxStudentsReached) <==> origin != Unsigned && |s.OwnedBy(newOwner)| >= 100)
            && (o.result == Ok <==> origin != Unsigned && |s.OwnedBy(newOwner)| < 100)
            && (o.result == Ok ==> IsAdmitted(s, o.storage, newOwner, student) && o.sent == [])
  {
    AdmitEffect(s, newOwner, student);
  }

  lemma GraduateEffect(cfg: Config, env: Env, s: Storage, origin: Origin, id: u32)
    ensures var o := Dispatch(cfg, env, s, origin, GraduateStudent(id));
            && (o.result == Err(BadOrigin) <==> !origin.Signed?)
            && (o.result == Err(NotStudentOwner) <==> origin.Signed? && id !in s.OwnedBy(origin.who))
            && (o.result == Err(StudentNotFound) <==>
                  origin.Signed? && id in s.OwnedBy(origin.who) && id !in s.students)
            && (o.result == Err(AlreadyGraduated) <==>
                  && origin.Signed? && id in s.OwnedBy(origin.who)
                  && id in s.students && s.students[id].hasGraduated)
            && (o.result == Err(XcmSendFailed) <==>
                  && origin.Signed? && id in s.OwnedBy(origin.who)
                  && id in s.students && !s.students[id].hasGraduated && env.send == Refused)
            && (o.result == Ok <==>
                  && origin.Signed? && id in s.OwnedBy(origin.who)
                  && id in s.students && !s.students[id].hasGraduated && env.send != Refused)
            && (o.result == Ok ==> IsDischarged(s, o.storage, origin.who, id))
  {
    if origin.Signed? && id in s.OwnedBy(origin.who) {
      DischargeEffect(s, origin.who, id);
    }
  }

  /**
   * A graduation sends one message, to the destination parachain as a sibling: free execution
   * without limit, then the call, dispatched as the sender's account and with a fallback weight.
   * The call delivers the student as it was, marked, to the caller.
   */
  lemma GraduationMessage(cfg: Config, env: Env, s: Storage, origin: Origin, id: u32)
    requires Dispatch(cfg, env, s, origin, GraduateStudent(id)).result == Ok
    ensures origin.Signed? && id in s.students && env.send.Accepted?
    ensures var was, sent := s.students[id], Dispatch(cfg, env, s, origin, GraduateStudent(id)).sent;
            var call := ReceiveStudent(Student(was.name, was.surname, was.age, was.gender, true), origin.who);
            && |sent| == 1
            && sent[0].dest == Location(1, [Parachain(cfg.destinationPara)])
            && sent[0].program == [ UnpaidExecution(Unlimited, None),
                                    Transact(SovereignAccount, Some(Weight(1_000_000_000, 65_536)),
                                             EncodeRuntimeCall(call)),
                                    SetTopic(env.send.topic) ]
  {}

  lemma DeleteEffect(cfg: Config, env: Env, s: Storage, origin: Origin, id: u32)
    ensures var o := Dispatch(cfg, env, s, origin, DeleteStudent(id));
            && (o.result == Err(BadOrigin) <==> !origin.Signed?)
            && (o.result == Err(StudentNotFound) <==> origin.Signed? && id !in s.students)
            && (o.result == Err(NotStudentOwner) <==>
                  origin.Signed? && id in s.students && id !in s.OwnedBy(origin.who))
            && (o.result == Ok <==> origin.Signed? && id in s.students && id in s.OwnedBy(origin.who))
            && (o.result == Ok ==> IsDischarged(s, o.storage, origin.who, id) && o.sent == [])
  {
    if origin.Signed? && id in s.OwnedBy(origin.who) {
      DischargeEffect(s, origin.who, id);
    }
  }

  lemma UpdateEffect(
      cfg: Config, env: Env, s: Storage, origin: Origin, id: u32,
      name: Bytes, surname: Bytes, age: u32, gender: Gender)
    ensures var o := Dispatch(cfg, env, s, origin, UpdateStudent(id, name, surname, age, gender));
            && (o.result == Err(BadOrigin) <==> !origin.Signed?)
            && (o.result == Err(NotStudentOwner) <==> origin.Signed? && id !in s.OwnedBy(origin.who))
            && (o.result == Err(StudentNotFound) <==>
                  origin.Signed? && id in s.OwnedBy(origin.who) && id !in s.students)
            && (o.result == Err(NameTooLong) <==>
                  && origin.Signed? && id in s.OwnedBy(origin.who) && id in s.students
                  && |name| > cfg.maxNameLen)
            && (o.result == Err(SurnameTooLong) <==>
                  && origin.Signed? && id in s.OwnedBy(origin.who) && id in s.students
                  && |name| <= cfg.maxNameLen && |surname| > cfg.maxSurnameLen)
            && (o.result == Ok <==>
                  && origin.Signed? && id in s.OwnedBy(origin.who) && id in s.students
                  && |name| <= cfg.maxNameLen && |surname| <= cfg.maxSurnameLen)
            && (o.result == Ok ==>
                  && id in o.storage.students
                  && o.storage.students[id] == Student(name, surname, age, gender, s.students[id].hasGraduated)
                  && OthersKept(s, o.storage, id) && o.storage.byOwner == s.byOwner
                  && o.storage.count == s.count && o.sent == [])
  {}

  /** The first account in `owners` whose list has `id`. */
  ghost predicate IsFirstHolder(s: Storage, owners: seq<AccountId>, id: u32, k: nat) {
    && k < |owners| && id in s.OwnedBy(owners[k])
    && forall j :: 0 <= j < k ==> id !in s.OwnedBy(owners[j])
  }

  lemma DeleteAnyEffect(cfg: Config, env: Env, s: Storage, origin: Origin, id: u32)
    ensures var o := Dispatch(cfg, env, s, origin, DeleteAnyStudent(id));
            && (o.result == Err(BadOrigin) <==> origin == Unsigned)
            && (o.result == Err(StudentNotFound) <==> origin != Unsigned && id !in s.students)
            && (o.result == Ok <==> origin != Unsigned && id in s.students)
            && (o.result == Ok ==>
                  && id !in o.storage.students && OthersKept(s, o.storage, id)
                  && o.storage.count == s.count && o.sent == []
                  && (forall k: nat :: IsFirstHolder(s, env.owners, id, k) ==>
                        IsDischarged(s, o.storage, env.owners[k], id))
                  && ((forall w: AccountId :: w in env.owners ==> id !in s.OwnedBy(w)) ==>
                        o.storage.byOwner == s.byOwner))
  {
    var o := Dispatch(cfg, env, s, origin, DeleteAnyStudent(id));
    if o.result == Ok {
      forall k: nat | IsFirstHolder(s, env.owners, id, k) ensures IsDischarged(s, o.storage, env.owners[k], id) {
        FirstHitAt(s, env.owners, id, k);
        DischargeEffect(s, env.owners[k], id);
      }
      if forall w: AccountId :: w in env.owners ==> id !in s.OwnedBy(w) {
        NoHit(s, env.owners, id);
      }
    }
  }

  lemma {:induction false} FirstHitAt(s: Storage, owners: seq<AccountId>, id: u32, k: nat)
    requires IsFirstHolder(s, owners, id, k)
    ensures FirstHit(s.byOwner, owners, id) == s.byOwner[owners[k] := Without(s.OwnedBy(owners[k]), id)]
    decreases k
  {
    if k > 0 {
      assert forall j :: 0 <= j < k - 1 ==> owners[1..][j] == owners[j + 1];
      FirstHitAt(s, owners[1..], id, k - 1);
    }
  }

  lemma {:induction false} NoHit(s: Storage, owners: seq<AccountId>, id: u32)
    requires forall w: AccountId :: w in owners ==> id !in s.OwnedBy(w)
    ensures FirstHit(s.byOwner, owners, id) == s.byOwner
  {
    if owners != [] {
      assert id !in s.OwnedBy(owners[0]);
      NoHit(s, owners[1..], id);
    }
  }

  // The shipped runtime

  /** Names have at most 10 bytes, surnames 20, and graduates go to parachain 2000. */
  lemma RuntimeBounds(
      env: Env, s: Storage, who: AccountId, name: Bytes, surname: Bytes, age: u32, gender: Gender, id: u32)
    ensures var create := Dispatch(RUNTIME_CONFIG, env, s, Signed(who), CreateStudent(name, surname, age, gender));
            && (create.result == Err(NameTooLong) <==> |name| >= 11)
            && (create.result == Err(SurnameTooLong) <==> |name| <= 10 && |surname| >= 21)
    ensures var graduate := Dispatch(RUNTIME_CONFIG, env, s, Signed(who), GraduateStudent(id));
            graduate.result == Ok ==> |graduate.sent| == 1 && graduate.sent[0].dest == Location(1, [Parachain(2000)])
  {}
}
