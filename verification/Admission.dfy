/** What the barrier's decisions mean for programs written out instruction by instruction. */
module Admission {
  import opened Types
  import opened Xcm

  // Denied programs

  /** Every instruction of a program, those of the programs inside it included. */
  function Everywhere(p: Program): seq<Instruction> {
    if p == [] then []
    else
      var inside :=
        match p[0]
        case SetAppendix(nested) => Everywhere(nested)
        case SetErrorHandler(nested) => Everywhere(nested)
        case ExecuteWithOrigin(_, nested) => Everywhere(nested)
        case _ => [];
      [p[0]] + inside + Everywhere(p[1..])
  }

  /** A program is denied exactly when one of three instructions with the relay chain as target is somewhere in it. */
  lemma {:induction false} DenialIsDeep(p: Program)
    ensures ReserveTransferToRelay(p) <==>
              || InitiateReserveWithdraw(Location(1, [])) in Everywhere(p)
              || DepositReserveAsset(Location(1, [])) in Everywhere(p)
              || TransferReserveAsset(Location(1, [])) in Everywhere(p)
  {
    if p != [] {
      DenialIsDeep(p[1..]);
      HeadOrTail(p);
      match p[0] {
        case SetAppendix(nested) => DenialIsDeep(nested);
        case SetErrorHandler(nested) => DenialIsDeep(nested);
        case ExecuteWithOrigin(_, nested) => DenialIsDeep(nested);
        case _ =>
      }
    }
  }

  lemma HeadOrTail(p: Program)
    requires p != []
    ensures ReserveTransferToRelay(p) <==> ReserveTransferToRelay([p[0]]) || ReserveTransferToRelay(p[1..])
  {
    assert p == [p[0]] + p[1..];
  }

  // Paying programs

  lemma {:induction false} SkipsClears(p: Program) returns (n: nat)
    ensures n <= |p| && SkipClearOrigin(p) == p[n..]
    ensures forall k :: 0 <= k < n ==> p[k] == ClearOrigin
    ensures n < |p| ==> p[n] != ClearOrigin
  {
    n := 0;
    if p != [] && p[0].ClearOrigin? {
      var m := SkipsClears(p[1..]);
      n := m + 1;
      assert forall k :: 1 <= k < n ==> p[k] == p[1..][k - 1];
    }
  }

  /** Assets first, then any number of `ClearOrigin`, then at position `n` enough execution time. */
  ghost predicate PaysAt(p: Program, weight: Weight, n: nat) {
    && 0 < n < |p|
    && p[0] in {WithdrawAsset, ReceiveTeleportedAsset, ReserveAssetDeposited, ClaimAsset}
    && (forall k :: 1 <= k < n ==> p[k] == ClearOrigin)
    && p[n].BuyExecution?
    && (p[n].limit == Unlimited ||
        (p[n].limit.max.refTime >= weight.refTime && p[n].limit.max.proofSize >= weight.proofSize))
  }

  lemma PayingPrograms(p: Program, weight: Weight)
    ensures AllowTopLevelPaidExecution(p, weight) <==> exists n: nat :: PaysAt(p, weight, n)
  {
    if p != [] {
      var m := SkipsClears(p[1..]);
      assert forall k :: 1 <= k <= m ==> p[k] == p[1..][k - 1];
      if AllowTopLevelPaidExecution(p, weight) {
        assert PaysAt(p, weight, m + 1);
      }
      if n: nat :| PaysAt(p, weight, n) {
        assert n == m + 1;
      }
    }
  }

  /** A sibling's request for free execution is granted if its limit covers the program. */
  lemma LimitedExecution(
      here: u32, para: u32, limit: WeightLimit, check: Option<Location>, rest: Program, weight: Weight)
    requires weight.refTime > 0 || weight.proofSize > 0
    ensures var p := [UnpaidExecution(limit, check)] + rest;
            Barrier(Documented(), here, Location(1, [Parachain(para)]), p, weight, Weight(0, 0)) <==>
              && !ReserveTransferToRelay(StripTopic(p))
              && (limit == Unlimited ||
                  (limit.max.refTime >= weight.refTime && limit.max.proofSize >= weight.proofSize))
  {
    var p, origin := [UnpaidExecution(limit, check)] + rest, Location(1, [Parachain(para)]);
    var q := StripTopic(p);
    assert q[0] == p[0] && q[0..] == q && LeadingChanges(q) == 0;
    assert OriginAfter(here, origin, q, 0) == Some(origin);
    FreeAdmission(here, origin, p, weight);
  }

  // Origin changes

  /** A graduation behind one origin change. */
  function Behind(change: Instruction, student: Student, owner: AccountId, topic: seq<byte>): Program {
    Route([change] + GraduationProgram(student, owner), topic)
  }

  lemma OneChangeAdmission(
      here: u32, origin: Location, change: Instruction, student: Student, owner: AccountId, topic: seq<byte>,
      weight: Weight)
    requires weight.refTime > 0 || weight.proofSize > 0
    requires ChangesOrigin(change)
    ensures var o := ChangedOrigin(here, origin, change);
            Barrier(Documented(), here, origin, Behind(change, student, owner, topic), weight, Weight(0, 0)) <==>
              && o.Some? && o.value.parents == 1
              && (|| o.value.interior == [] || o.value.interior == [Plurality(Executive)]
                  || (|o.value.interior| == 1 && o.value.interior[0].Parachain?))
  {
    var g := GraduationProgram(student, owner);
    var p := [change] + g;
    TopicIsTransparent(p, topic);
    assert p[1..] == g && g[0].UnpaidExecution? && LeadingChanges(g) == 0 && LeadingChanges(p) == 1;
    OneChange(here, origin, p);
    HeadOrTail(p);
    FreeAdmission(here, origin, Route(p, topic), weight);
  }

  /** After a universal origin other than the chain's own, a parachain or the executive body counts as neighbour. */
  lemma AfterUniversalOrigin(
      here: u32, origin: Location, j: Junction, student: Student, owner: AccountId, topic: seq<byte>, weight: Weight)
    requires weight.refTime > 0 || weight.proofSize > 0
    ensures Barrier(Documented(), here, origin, Behind(UniversalOrigin(j), student, owner, topic),
                    weight, Weight(0, 0)) <==>
              j != Parachain(here) && (j.Parachain? || j == Plurality(Executive))
  {
    OneChangeAdmission(here, origin, UniversalOrigin(j), student, owner, topic, weight);
  }

  /** A descent is judged by the location reached. */
  lemma AfterDescent(
      here: u32, origin: Location, path: seq<Junction>, student: Student, owner: AccountId, topic: seq<byte>,
      weight: Weight)
    requires weight.refTime > 0 || weight.proofSize > 0
    ensures var interior := origin.interior + path;
            Barrier(Documented(), here, origin, Behind(DescendOrigin(path), student, owner, topic),
                    weight, Weight(0, 0)) <==>
              && origin.parents == 1
              && (|| interior == [] || interior == [Plurality(Executive)]
                  || (|interior| == 1 && interior[0].Parachain?))
  {
    OneChangeAdmission(here, origin, DescendOrigin(path), student, owner, topic, weight);
  }

  /** A location has at most eight junctions; a descent beyond them is refused even to a program that pays. */
  lemma LongDescent(here: u32, origin: Location, path: seq<Junction>, weight: Weight)
    requires weight.refTime > 0 || weight.proofSize > 0
    ensures Barrier(Documented(), here, origin, [DescendOrigin(path), WithdrawAsset, BuyExecution(Unlimited)],
                    weight, Weight(0, 0)) <==>
              |origin.interior + path| <= 8
  {
    var p := [DescendOrigin(path), WithdrawAsset, BuyExecution(Unlimited)];
    NoCreditAdmission(Documented(), here, origin, p, weight);
    assert p[1..] == [WithdrawAsset, BuyExecution(Unlimited)] && p[1..][1..] == [BuyExecution(Unlimited)];
    assert StripTopic(p) == p && LeadingChanges(p[1..]) == 0 && LeadingChanges(p) == 1;
    OneChange(here, origin, p);
  }

  lemma {:induction false} EmptyDescents(here: u32, origin: Location, n: nat, p: Program)
    requires |origin.interior| <= 8 && LeadingChanges(p) == 0
    ensures var descents := seq(n, _ => DescendOrigin([])) + p;
            LeadingChanges(descents) == n && OriginAfter(here, origin, descents, n) == Some(origin)
    ensures ReserveTransferToRelay(seq(n, _ => DescendOrigin([])) + p) <==> ReserveTransferToRelay(p)
  {
    var descents := seq(n, _ => DescendOrigin([])) + p;
    if n == 0 {
      assert descents == p;
    } else {
      EmptyDescents(here, origin, n - 1, p);
      assert descents[1..] == seq(n - 1, _ => DescendOrigin([])) + p;
      assert origin.interior + [] == origin.interior;
      HeadOrTail(descents);
    }
  }

  /** The barrier follows eight origin changes and no more. */
  lemma EightChanges(
      here: u32, para: u32, n: nat, student: Student, owner: AccountId, topic: seq<byte>, weight: Weight)
    requires weight.refTime > 0 || weight.proofSize > 0
    ensures var p := seq(n, _ => DescendOrigin([])) + GraduationProgram(student, owner);
            Barrier(Documented(), here, Location(1, [Parachain(para)]), Route(p, topic), weight, Weight(0, 0)) <==>
              n <= 8
  {
    var g, origin := GraduationProgram(student, owner), Location(1, [Parachain(para)]);
    var p := seq(n, _ => DescendOrigin([])) + g;
    EmptyDescents(here, origin, n, g);
    assert p[n..] == g && p[|p| - 1] == g[1];
    TopicIsTransparent(p, topic);
    FreeAdmission(here, origin, Route(p, topic), weight);
  }
}
