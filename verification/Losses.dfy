/**
 * Losses over runs in which both chains are used while messages are delivered: nothing is
 * lost as long as no account is given more than its list can hold.
 */
module Losses {
  import opened Types
  import opened PalletSpec
  import opened Registry
  import opened Consistency
  import opened TwoChains
  import opened Journeys
  import opened Draining
  import Chain

  /** A call made on the company chain gives `who` a new student. */
  predicate Enrols(net: Network, y: System, event: Event, who: AccountId) {
    && event.OnB? && WillAdmit(net.cfg, y.b, event.step.origin, event.step.call)
    && Admits(net.cfg, event.step.origin, event.step.call).value == who
  }

  /** A student of `who` is due and its delivery is attempted. */
  predicate IsDueTo(x: Traced, event: Event, who: AccountId) {
    && Delivers(x.sys, event) && 0 <= x.ledger.Head(x.sys)
    && x.ledger.graduates[x.ledger.Head(x.sys)].owner == who
  }

  /** The calls on the company chain that give `who` a student, from time `t1` to `t2`. */
  function Enrolments(net: Network, events: seq<Event>, t1: nat, t2: nat, who: AccountId): nat
    requires t1 <= t2 <= |events|
    decreases t2
  {
    if t1 == t2 then 0
    else
      Enrolments(net, events, t1, t2 - 1, who)
      + if Enrols(net, At(net, events, t2 - 1).sys, events[t2 - 1], who) then 1 else 0
  }

  /** The students whose delivery is attempted from time `t1` to `t2`, in the order of graduation. */
  ghost function Attempted(net: Network, events: seq<Event>, t1: nat, t2: nat): seq<Entry>
    requires LegalPlay(net, events) && t1 <= t2 <= |events|
  {
    HeadsInRange(net, events, t1, t2);
    var x1, x2 := At(net, events, t1), At(net, events, t2);
    x2.ledger.graduates[x1.ledger.Head(x1.sys)..x2.ledger.Head(x2.sys)]
  }

  lemma HeadsInRange(net: Network, events: seq<Event>, t1: nat, t2: nat)
    requires LegalPlay(net, events) && t1 <= t2 <= |events|
    ensures var x1, x2 := At(net, events, t1), At(net, events, t2);
            && 0 <= x1.ledger.Head(x1.sys) <= x2.ledger.Head(x2.sys) <= |x2.ledger.graduates|
            && x1.sys.dropped <= x2.sys.dropped && x1.ledger.graduates <= x2.ledger.graduates
  {
    CoherentThroughout(net, events, t1);
    StudentsNeverReturn(net, events, t1, t2);
  }

  /** What the list of `who` would have to hold at `t2` if nothing were refused or taken off since `t1`. */
  ghost function Demand(net: Network, events: seq<Event>, t1: nat, t2: nat, who: AccountId): nat
    requires LegalPlay(net, events) && t1 <= t2 <= |events|
  {
    |At(net, events, t1).sys.b.OwnedBy(who)|
    + CountFor(Attempted(net, events, t1, t2), who) + Enrolments(net, events, t1, t2, who)
  }

  ghost predicate RoomMeanwhile(net: Network, events: seq<Event>, t1: nat, t2: nat)
    requires LegalPlay(net, events) && t1 <= t2 <= |events|
  {
    forall who: AccountId :: Demand(net, events, t1, t2, who) <= MAX_OWNED
  }

  /** No call on the company chain deletes a student from time `t1` to `t2`. */
  ghost predicate NoneTakenOff(events: seq<Event>, t1: nat, t2: nat) {
    forall t :: t1 <= t < t2 && t < |events| && events[t].OnB? ==>
      !events[t].step.call.DeleteStudent? && !events[t].step.call.DeleteAnyStudent?
  }

  ghost predicate NothingLost(net: Network, events: seq<Event>, t1: nat, t2: nat)
    requires t1 <= t2 <= |events|
  {
    At(net, events, t2).sys.dropped == At(net, events, t1).sys.dropped
  }

  // One event

  /** How many students an event would add to the list of `who`. */
  function Gain(net: Network, x: Traced, event: Event, who: AccountId): nat {
    (if Enrols(net, x.sys, event, who) then 1 else 0) + (if IsDueTo(x, event, who) then 1 else 0)
  }

  lemma DispatchOnList(cfg: Config, env: Env, s: Storage, origin: Origin, call: Call, who: AccountId)
    requires env.send.Refused?
    ensures var s' := Dispatch(cfg, env, s, origin, call).storage;
            var one := if WillAdmit(cfg, s, origin, call) && Admits(cfg, origin, call).value == who then 1 else 0;
            && |s'.OwnedBy(who)| <= |s.OwnedBy(who)| + one
            && (!call.DeleteStudent? && !call.DeleteAnyStudent? ==> |s'.OwnedBy(who)| == |s.OwnedBy(who)| + one)
  {
    match call
    case DeleteAnyStudent(id) => FirstHitFrame(s.byOwner, env.owners, id);
    case _ =>
  }

  lemma DeliveryOnList(net: Network, x: Traced, who: AccountId)
    requires Coherent(net, x.sys, x.ledger) && x.sys.channel != []
    ensures var y' := DeliverHead(net, x.sys);
            var e := x.ledger.graduates[x.ledger.Head(x.sys)];
            if |x.sys.b.OwnedBy(e.owner)| >= MAX_OWNED then
              y'.b == x.sys.b && |y'.dropped| == |x.sys.dropped| + 1
            else
              && |y'.b.OwnedBy(who)| == |x.sys.b.OwnedBy(who)| + (if e.owner == who then 1 else 0)
              && y'.dropped == x.sys.dropped
  {
    HeadDelivery(net, x.sys, x.ledger);
  }

  lemma EventOnList(net: Network, x: Traced, event: Event, x': Traced, who: AccountId)
    requires x' == Advance(net, x, event) && Coherent(net, x.sys, x.ledger)
    ensures |x'.sys.b.OwnedBy(who)| <= |x.sys.b.OwnedBy(who)| + Gain(net, x, event, who)
    ensures (event.OnB? ==> !event.step.call.DeleteStudent? && !event.step.call.DeleteAnyStudent?)
              && x'.sys.dropped == x.sys.dropped ==>
              |x'.sys.b.OwnedBy(who)| == |x.sys.b.OwnedBy(who)| + Gain(net, x, event, who)
  {
    match event
    case OnA(_) =>
    case OnB(step) => DispatchOnList(net.cfg, WithoutRoute(step).env, x.sys.b, step.origin, step.call, who);
    case Deliver =>
      if x.sys.channel != [] {
        DeliveryOnList(net, x, who);
      }
  }

  /** A loss needs a full list. */
  lemma EventLoses(net: Network, x: Traced, event: Event, x': Traced) returns (who: AccountId)
    requires x' == Advance(net, x, event) && Coherent(net, x.sys, x.ledger) && x'.sys.dropped != x.sys.dropped
    ensures IsDueTo(x, event, who) && |x.sys.b.OwnedBy(who)| >= MAX_OWNED
  {
    who := x.ledger.graduates[x.ledger.Head(x.sys)].owner;
    DeliveryOnList(net, x, who);
  }

  // Whole runs

  lemma AttemptedNext(net: Network, events: seq<Event>, t1: nat, t2: nat, who: AccountId)
    requires LegalPlay(net, events) && t1 < t2 <= |events|
    ensures var x := At(net, events, t2 - 1);
            CountFor(Attempted(net, events, t1, t2), who) ==
              CountFor(Attempted(net, events, t1, t2 - 1), who) + if IsDueTo(x, events[t2 - 1], who) then 1 else 0
  {
    HeadsInRange(net, events, t1, t2 - 1);
    HeadsInRange(net, events, t2 - 1, t2);
    CoherentThroughout(net, events, t2 - 1);
    AtLast(net, events, t2);
    var x, x' := At(net, events, t2 - 1), At(net, events, t2);
    HeadAdvances(net, x, events[t2 - 1], x');
    SliceGrows(x.ledger.graduates, x'.ledger.graduates, At(net, events, t1).ledger.Head(At(net, events, t1).sys),
               x.ledger.Head(x.sys), x'.ledger.Head(x'.sys), who);
  }

  lemma SliceGrows(g: seq<Entry>, g': seq<Entry>, from: nat, to: nat, to': nat, who: AccountId)
    requires g <= g' && from <= to <= |g| && to <= to' <= |g'| && to' <= to + 1
    ensures CountFor(g'[from..to'], who) ==
              CountFor(g[from..to], who) + if to' > to && g'[to].owner == who then 1 else 0
  {
    assert g'[from..to] == g[from..to];
    if to' > to {
      assert g'[from..to'] == g'[from..to] + [g'[to]];
      CountForAppend(g'[from..to], [g'[to]], who);
    }
  }

  lemma DemandNext(net: Network, events: seq<Event>, t1: nat, t2: nat, who: AccountId)
    requires LegalPlay(net, events) && t1 < t2 <= |events|
    ensures Demand(net, events, t1, t2, who) ==
              Demand(net, events, t1, t2 - 1, who) + Gain(net, At(net, events, t2 - 1), events[t2 - 1], who)
  {
    AttemptedNext(net, events, t1, t2, who);
  }

  lemma NothingBetween(g: seq<Entry>, i: nat, who: AccountId)
    requires i <= |g|
    ensures CountFor(g[i..i], who) == 0
  {}

  lemma DemandAtStart(net: Network, events: seq<Event>, t: nat, who: AccountId)
    requires LegalPlay(net, events) && t <= |events|
    ensures Demand(net, events, t, t, who) == |At(net, events, t).sys.b.OwnedBy(who)|
  {
    HeadsInRange(net, events, t, t);
    NothingBetween(At(net, events, t).ledger.graduates, At(net, events, t).ledger.Head(At(net, events, t).sys), who);
  }

  /** The list of `who` holds what was asked of it, unless something was refused or taken off. */
  ghost predicate HoldsDemand(net: Network, events: seq<Event>, t1: nat, t2: nat, who: AccountId)
    requires LegalPlay(net, events) && t1 <= t2 <= |events|
  {
    var held, asked := |At(net, events, t2).sys.b.OwnedBy(who)|, Demand(net, events, t1, t2, who);
    && held <= asked
    && (NoneTakenOff(events, t1, t2) && NothingLost(net, events, t1, t2) ==> held == asked)
  }

  lemma ListNext(net: Network, events: seq<Event>, t: nat, who: AccountId)
    requires LegalPlay(net, events) && 0 < t <= |events|
    ensures var before, after := |At(net, events, t - 1).sys.b.OwnedBy(who)|, |At(net, events, t).sys.b.OwnedBy(who)|;
            var gain := Gain(net, At(net, events, t - 1), events[t - 1], who);
            && after <= before + gain
            && (NoneTakenOff(events, t - 1, t) && NothingLost(net, events, t - 1, t) ==> after == before + gain)
  {
    CoherentThroughout(net, events, t - 1);
    AtLast(net, events, t);
    EventOnList(net, At(net, events, t - 1), events[t - 1], At(net, events, t), who);
  }

  lemma HoldsDemandNext(net: Network, events: seq<Event>, t1: nat, t2: nat, who: AccountId)
    requires LegalPlay(net, events) && t1 < t2 <= |events| && HoldsDemand(net, events, t1, t2 - 1, who)
    ensures HoldsDemand(net, events, t1, t2, who)
  {
    ListNext(net, events, t2, who);
    DemandNext(net, events, t1, t2, who);
    if NothingLost(net, events, t1, t2) {
      NothingLostBefore(net, events, t1, t2);
    }
  }

  lemma NothingLostBefore(net: Network, events: seq<Event>, t1: nat, t2: nat)
    requires LegalPlay(net, events) && t1 < t2 <= |events| && NothingLost(net, events, t1, t2)
    ensures NothingLost(net, events, t1, t2 - 1) && NothingLost(net, events, t2 - 1, t2)
  {
    HeadsInRange(net, events, t1, t2 - 1);
    HeadsInRange(net, events, t2 - 1, t2);
  }

  lemma {:induction false} HoldsDemandThroughout(net: Network, events: seq<Event>, t1: nat, t2: nat, who: AccountId)
    requires LegalPlay(net, events) && t1 <= t2 <= |events|
    ensures HoldsDemand(net, events, t1, t2, who)
  {
    if t1 == t2 {
      DemandAtStart(net, events, t1, who);
    } else {
      HoldsDemandThroughout(net, events, t1, t2 - 1, who);
      HoldsDemandNext(net, events, t1, t2, who);
    }
  }

  lemma {:induction false} RoomPreventsLoss(net: Network, events: seq<Event>, t1: nat, t2: nat)
    requires LegalPlay(net, events) && t1 <= t2 <= |events| && RoomMeanwhile(net, events, t1, t2)
    ensures NothingLost(net, events, t1, t2)
  {
    if t1 < t2 {
      RoomBefore(net, events, t1, t2);
      RoomPreventsLoss(net, events, t1, t2 - 1);
      RoomForNext(net, events, t1, t2);
    }
  }

  lemma RoomBefore(net: Network, events: seq<Event>, t1: nat, t2: nat)
    requires LegalPlay(net, events) && t1 < t2 <= |events| && RoomMeanwhile(net, events, t1, t2)
    ensures RoomMeanwhile(net, events, t1, t2 - 1)
  {
    var last := t2 - 1;
    forall who: AccountId ensures Demand(net, events, t1, last, who) <= MAX_OWNED {
      DemandNext(net, events, t1, t2, who);
      assert Demand(net, events, t1, t2, who) <= MAX_OWNED;
    }
  }

  lemma RoomForNext(net: Network, events: seq<Event>, t1: nat, t2: nat)
    requires LegalPlay(net, events) && t1 < t2 <= |events| && RoomMeanwhile(net, events, t1, t2)
    ensures NothingLost(net, events, t2 - 1, t2)
  {
    if !NothingLost(net, events, t2 - 1, t2) {
      var who := LossAt(net, events, t2);
      HoldsDemandThroughout(net, events, t1, t2 - 1, who);
      DemandNext(net, events, t1, t2, who);
    }
  }

  lemma LossAt(net: Network, events: seq<Event>, t: nat) returns (who: AccountId)
    requires LegalPlay(net, events) && 0 < t <= |events| && !NothingLost(net, events, t - 1, t)
    ensures Gain(net, At(net, events, t - 1), events[t - 1], who) > 0
    ensures |At(net, events, t - 1).sys.b.OwnedBy(who)| >= MAX_OWNED
  {
    CoherentThroughout(net, events, t - 1);
    AtLast(net, events, t);
    who := EventLoses(net, At(net, events, t - 1), events[t - 1], At(net, events, t));
  }

  /**
   * From any moment of any run to any later one, whatever is called on either chain meanwhile:
   * nothing is lost if for every account its students on the company chain at first, those
   * whose delivery is attempted and those that calls on the company chain give it are at most
   * 100 together. If the company chain deletes nobody meanwhile this is also necessary.
   */
  lemma LossFreeBetween(net: Network, events: seq<Event>, t1: nat, t2: nat)
    requires LegalPlay(net, events) && t1 <= t2 <= |events|
    ensures RoomMeanwhile(net, events, t1, t2) ==> NothingLost(net, events, t1, t2)
    ensures NoneTakenOff(events, t1, t2) ==>
              (RoomMeanwhile(net, events, t1, t2) <==> NothingLost(net, events, t1, t2))
  {
    if RoomMeanwhile(net, events, t1, t2) {
      RoomPreventsLoss(net, events, t1, t2);
    }
    if NoneTakenOff(events, t1, t2) && NothingLost(net, events, t1, t2) {
      forall who: AccountId ensures Demand(net, events, t1, t2, who) <= MAX_OWNED {
        HoldsDemandThroughout(net, events, t1, t2, who);
        ListsAreBounded(net, events, t2, who);
      }
    }
  }

  lemma ListsAreBounded(net: Network, events: seq<Event>, t: nat, who: AccountId)
    requires LegalPlay(net, events) && t <= |events|
    ensures |At(net, events, t).sys.b.OwnedBy(who)| <= MAX_OWNED
  {
    CoherentThroughout(net, events, t);
  }

  /**
   * While no call on the company chain asks for a new student, room at first for all those
   * on their way and all that graduate meanwhile is enough.
   */
  lemma RoomKeepsAll(net: Network, events: seq<Event>, t1: nat, t2: nat)
    requires LegalPlay(net, events) && t1 <= t2 <= |events|
    requires forall t :: t1 <= t < t2 && events[t].OnB? ==> !events[t].step.call.Allocates()
    ensures var x1, x2 := At(net, events, t1), At(net, events, t2);
            && 0 <= x1.ledger.Head(x1.sys) <= |x2.ledger.graduates|
            && (RoomForAll(x1.sys.b, x2.ledger.graduates[x1.ledger.Head(x1.sys)..]) ==>
                  NothingLost(net, events, t1, t2))
  {
    HeadsInRange(net, events, t1, t2);
    var x1, x2 := At(net, events, t1), At(net, events, t2);
    var due := x2.ledger.graduates[x1.ledger.Head(x1.sys)..];
    if RoomForAll(x1.sys.b, due) {
      forall who: AccountId ensures Demand(net, events, t1, t2, who) <= MAX_OWNED {
        NobodyEnrols(net, events, t1, t2, who);
        AttemptedAreDue(net, events, t1, t2, who);
        assert |x1.sys.b.OwnedBy(who)| + CountFor(due, who) <= MAX_OWNED;
      }
      LossFreeBetween(net, events, t1, t2);
    }
  }

  lemma {:induction false} NobodyEnrols(net: Network, events: seq<Event>, t1: nat, t2: nat, who: AccountId)
    requires t1 <= t2 <= |events|
    requires forall t :: t1 <= t < t2 && events[t].OnB? ==> !events[t].step.call.Allocates()
    ensures Enrolments(net, events, t1, t2, who) == 0
    decreases t2
  {
    if t1 < t2 {
      NobodyEnrols(net, events, t1, t2 - 1, who);
    }
  }

  lemma AttemptedAreDue(net: Network, events: seq<Event>, t1: nat, t2: nat, who: AccountId)
    requires LegalPlay(net, events) && t1 <= t2 <= |events|
    ensures var head := At(net, events, t1).ledger.Head(At(net, events, t1).sys);
            && 0 <= head <= |At(net, events, t2).ledger.graduates|
            && CountFor(Attempted(net, events, t1, t2), who) <=
                 CountFor(At(net, events, t2).ledger.graduates[head..], who)
  {
    HeadsInRange(net, events, t1, t2);
    var x1, x2 := At(net, events, t1), At(net, events, t2);
    var from, to := x1.ledger.Head(x1.sys), x2.ledger.Head(x2.sys);
    assert x2.ledger.graduates[from..] == x2.ledger.graduates[from..to] + x2.ledger.graduates[to..];
    CountForAppend(x2.ledger.graduates[from..to], x2.ledger.graduates[to..], who);
  }
}
