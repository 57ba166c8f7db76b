/** Emptying the channel: the order of calls and deliveries does not matter, and what is lost is known. */
module Draining {
  import opened Types
  import opened Lists
  import opened Xcm
  import opened PalletSpec
  import opened Registry
  import opened Consistency
  import opened Delivery
  import opened TwoChains
  import opened Journeys
  import Chain

  /** Delivers until the channel is empty. */
  function Drain(net: Network, y: System): (r: System)
    ensures r.channel == [] && r.a == y.a
    decreases |y.channel|
  {
    if y.channel == [] then y else Drain(net, DeliverHead(net, y))
  }

  function PlayFrom(net: Network, y: System, events: seq<Event>): System
    decreases |events|
  {
    if events == [] then y else PlayFrom(net, Transition(net, y, events[0]), events[1..])
  }

  function CallsOnA(events: seq<Event>): seq<Event> {
    if events == [] then []
    else (if events[0].OnA? then [events[0]] else []) + CallsOnA(events[1..])
  }

  /** The calls on the university chain, all of them, in their order, and nothing else. */
  lemma {:induction false} CallsInOrder(events: seq<Event>, more: seq<Event>)
    ensures CallsOnA(events + more) == CallsOnA(events) + CallsOnA(more)
  {
    if events == [] {
      assert events + more == more;
    } else {
      var event, rest := events[0], events[1..];
      assert events == [event] + rest && events + more == [event] + (rest + more);
      CallsAfter(event, rest);
      CallsAfter(event, rest + more);
      CallsInOrder(rest, more);
      Associative(if event.OnA? then [event] else [], CallsOnA(rest), CallsOnA(more));
    }
  }

  lemma CallsAfter(event: Event, rest: seq<Event>)
    ensures CallsOnA([event] + rest) == (if event.OnA? then [event] else []) + CallsOnA(rest)
    ensures CallsOnA([event]) == if event.OnA? then [event] else []
  {
    assert ([event] + rest)[1..] == rest;
  }

  lemma {:induction false} DrainIgnoresA(net: Network, y: System, a: Storage)
    ensures Drain(net, y.(a := a)) == Drain(net, y).(a := a)
    decreases |y.channel|
  {
    if y.channel != [] {
      assert DeliverHead(net, y.(a := a)) == DeliverHead(net, y).(a := a);
      DrainIgnoresA(net, DeliverHead(net, y), a);
    }
  }

  /** Delivering the head does not depend on what is behind it. */
  lemma HeadFirst(net: Network, y: System, more: seq<Outbound>)
    requires y.channel != []
    ensures var next := DeliverHead(net, y);
            DeliverHead(net, y.(channel := y.channel + more)) == next.(channel := next.channel + more)
  {
    assert (y.channel + more)[1..] == y.channel[1..] + more;
  }

  /** Draining in two portions is draining. */
  lemma {:induction false} DrainInPortions(net: Network, y: System, more: seq<Outbound>)
    ensures Drain(net, y.(channel := y.channel + more)) == Drain(net, Drain(net, y).(channel := more))
    decreases |y.channel|
  {
    if y.channel == [] {
      assert y.channel + more == more;
    } else {
      HeadFirst(net, y, more);
      DrainInPortions(net, DeliverHead(net, y), more);
    }
  }

  /** A call on the university chain treats systems alike that drain alike. */
  lemma CallThenDrain(net: Network, y: System, step: Chain.Step)
    ensures var o, d := Chain.After(net.cfg, y.a, step), Drain(net, y);
            Drain(net, Transition(net, y, OnA(step))) == Drain(net, d.(channel := o.sent)).(a := o.storage)
  {
    var o := Chain.After(net.cfg, y.a, step);
    DrainInPortions(net, y, o.sent);
    DrainIgnoresA(net, y.(channel := y.channel + o.sent), o.storage);
  }

  lemma CallComesFirst(net: Network, z: System, events: seq<Event>)
    requires events != [] && events[0].OnA?
    ensures PlayFrom(net, z, CallsOnA(events)) == PlayFrom(net, Transition(net, z, events[0]), CallsOnA(events[1..]))
  {
    assert CallsOnA(events)[1..] == CallsOnA(events[1..]);
  }

  lemma CallKeepsAlike(net: Network, y: System, z: System, event: Event)
    requires event.OnA? && Drain(net, y) == Drain(net, z)
    ensures Drain(net, Transition(net, y, event)) == Drain(net, Transition(net, z, event))
  {
    CallThenDrain(net, y, event.step);
    CallThenDrain(net, z, event.step);
  }

  lemma DeliveryThenDrain(net: Network, y: System, event: Event)
    requires event.Deliver?
    ensures Drain(net, Transition(net, y, event)) == Drain(net, y)
  {}

  lemma DeliveryIsSkipped(events: seq<Event>)
    requires events != [] && events[0].Deliver?
    ensures CallsOnA(events) == CallsOnA(events[1..])
  {}

  lemma {:induction false} DrainAlike(net: Network, y: System, z: System, events: seq<Event>)
    requires Drain(net, y) == Drain(net, z)
    requires forall i :: 0 <= i < |events| ==> !events[i].OnB?
    ensures Drain(net, PlayFrom(net, y, events)) == Drain(net, PlayFrom(net, z, CallsOnA(events)))
    decreases |events|
  {
    if events != [] {
      var event, rest := events[0], events[1..];
      if event.OnA? {
        CallKeepsAlike(net, y, z, event);
        DrainAlike(net, Transition(net, y, event), Transition(net, z, event), rest);
        CallComesFirst(net, z, events);
      } else {
        DeliveryThenDrain(net, y, event);
        DrainAlike(net, Transition(net, y, event), z, rest);
        DeliveryIsSkipped(events);
      }
    }
  }

  /**
   * However deliveries are mixed in, draining gives the same two chains and the same lost
   * messages as making all calls first and delivering afterwards. No assumption is made
   * about the calls, the router's answers or the state.
   */
  lemma InterleavingIsIrrelevant(net: Network, y: System, events: seq<Event>)
    requires forall i :: 0 <= i < |events| ==> !events[i].OnB?
    ensures Drain(net, PlayFrom(net, y, events)) == Drain(net, PlayFrom(net, y, CallsOnA(events)))
  {
    DrainAlike(net, y, y, events);
  }

  // The company chain as a fold over the graduates

  datatype Inbox = Inbox(b: Storage, refused: seq<Entry>)

  /** Admits the entries in order; those that find their owner's list full are refused. */
  function ReceiveAll(b: Storage, entries: seq<Entry>): Inbox
    decreases |entries|
  {
    if entries == [] then Inbox(b, [])
    else
      var o := Admit(b, entries[0].owner, entries[0].student);
      var r := ReceiveAll(o.storage, entries[1..]);
      Inbox(r.b, (if o.result.Ok? then [] else [entries[0]]) + r.refused)
  }

  /** The first entry is admitted or refused before all others. */
  lemma ReceiveFirst(b: Storage, e: Entry, entries: seq<Entry>)
    ensures var o := Admit(b, e.owner, e.student);
            var r := ReceiveAll(o.storage, entries);
            ReceiveAll(b, [e] + entries) == Inbox(r.b, (if o.result.Ok? then [] else [e]) + r.refused)
  {
    assert ([e] + entries)[1..] == entries;
  }

  lemma Associative<T>(x: seq<T>, y: seq<T>, z: seq<T>)
    ensures x + (y + z) == (x + y) + z
  {}

  lemma {:induction false} ReceiveInPortions(b: Storage, first: seq<Entry>, second: seq<Entry>)
    ensures var r1 := ReceiveAll(b, first);
            var r2 := ReceiveAll(r1.b, second);
            ReceiveAll(b, first + second) == Inbox(r2.b, r1.refused + r2.refused)
    decreases |first|
  {
    if first == [] {
      assert first + second == second;
      assert [] + ReceiveAll(b, second).refused == ReceiveAll(b, second).refused;
    } else {
      var e, rest := first[0], first[1..];
      var o := Admit(b, e.owner, e.student);
      assert first == [e] + rest && first + second == [e] + (rest + second);
      ReceiveFirst(b, e, rest);
      ReceiveFirst(b, e, rest + second);
      ReceiveInPortions(o.storage, rest, second);
      var r1 := ReceiveAll(o.storage, rest);
      Associative(if o.result.Ok? then [] else [e], r1.refused, ReceiveAll(r1.b, second).refused);
    }
  }

  /** The entries that the messages on the channel carry. */
  function Due(y: System, l: Ledger): seq<Entry>
    requires |y.channel| <= |l.graduates|
  {
    l.graduates[l.Head(y)..]
  }

  lemma HeadDelivers(net: Network, y: System, e: Entry)
    requires y.channel != [] && Carries(net.cfg, y.channel[0], e)
    ensures var o := Admit(y.b, e.owner, e.student);
            DeliverHead(net, y) ==
              System(y.a, y.channel[1..], o.storage, if o.result.Ok? then y.dropped else y.dropped + [y.channel[0]])
  {
    var topic :| y.channel[0] == Parcel(net.cfg, e.student, e.owner, topic);
    ParcelAdmits(net.cfg, net.source, net.order(y.b.byOwner.Keys), e.student, e.owner, topic, y.b);
  }

  /** Draining admits what the channel carries, in order, and loses exactly what is refused. */
  lemma {:induction false} DrainReceivesAll(net: Network, y: System, entries: seq<Entry>)
    requires Matched(Carrying(net.cfg), y.channel, entries)
    ensures Drain(net, y).b == ReceiveAll(y.b, entries).b
    ensures y.dropped <= Drain(net, y).dropped
    ensures |Drain(net, y).dropped| == |y.dropped| + |ReceiveAll(y.b, entries).refused|
    ensures Matched(Carrying(net.cfg), Drain(net, y).dropped[|y.dropped|..], ReceiveAll(y.b, entries).refused)
    decreases |entries|
  {
    if entries != [] {
      var next := DeliverHead(net, y);
      HeadDelivers(net, y, entries[0]);
      DrainReceivesAll(net, next, entries[1..]);
      LostSoFar(net.cfg, y, next, Drain(net, y).dropped, entries);
    }
  }

  lemma {:induction false} LostSoFar(cfg: Config, y: System, next: System, lost: seq<Outbound>, entries: seq<Entry>)
    requires entries != [] && y.channel != [] && Carries(cfg, y.channel[0], entries[0])
    requires var o := Admit(y.b, entries[0].owner, entries[0].student);
             next.b == o.storage && next.dropped == if o.result.Ok? then y.dropped else y.dropped + [y.channel[0]]
    requires next.dropped <= lost
    requires Matched(Carrying(cfg), lost[|next.dropped|..], ReceiveAll(next.b, entries[1..]).refused)
    ensures y.dropped <= lost && Matched(Carrying(cfg), lost[|y.dropped|..], ReceiveAll(y.b, entries).refused)
  {
    var rest := ReceiveAll(next.b, entries[1..]).refused;
    if Admit(y.b, entries[0].owner, entries[0].student).result.Err? {
      Peel(y.dropped, y.channel[0], lost);
      assert ([y.channel[0]] + lost[|next.dropped|..])[1..] == lost[|next.dropped|..];
      assert ([entries[0]] + rest)[1..] == rest;
      assert ReceiveAll(y.b, entries).refused == [entries[0]] + rest;
    } else {
      assert ReceiveAll(y.b, entries).refused == [] + rest == rest;
    }
  }

  lemma Peel<T>(prefix: seq<T>, x: T, whole: seq<T>)
    requires prefix + [x] <= whole
    ensures prefix <= whole && whole[|prefix|..] == [x] + whole[|prefix| + 1..]
  {
    assert whole[|prefix|] == (prefix + [x])[|prefix|];
    assert forall i :: 0 <= i < |prefix| ==> prefix[i] == (prefix + [x])[i] == whole[i];
  }

  // What is lost

  function CountFor(entries: seq<Entry>, who: AccountId): nat {
    if entries == [] then 0 else (if entries[0].owner == who then 1 else 0) + CountFor(entries[1..], who)
  }

  lemma {:induction false} CountForAppend(x: seq<Entry>, y: seq<Entry>, who: AccountId)
    ensures CountFor(x + y, who) == CountFor(x, who) + CountFor(y, who)
  {
    if x == [] {
      assert x + y == y;
    } else {
      assert (x + y)[1..] == x[1..] + y;
      CountForAppend(x[1..], y, who);
    }
  }

  /** An account ends with its students and those on the way, up to 100; the excess is refused. */
  lemma {:induction false} ExcessIsRefused(b: Storage, entries: seq<Entry>, who: AccountId)
    requires |b.OwnedBy(who)| <= MAX_OWNED
    ensures var r, total := ReceiveAll(b, entries), |b.OwnedBy(who)| + CountFor(entries, who);
            && |r.b.OwnedBy(who)| == (if total <= MAX_OWNED then total else MAX_OWNED)
            && CountFor(r.refused, who) == total - |r.b.OwnedBy(who)|
    decreases |entries|
  {
    if entries != [] {
      var o := Admit(b, entries[0].owner, entries[0].student);
      ExcessIsRefused(o.storage, entries[1..], who);
      CountForAppend(if o.result.Ok? then [] else [entries[0]], ReceiveAll(o.storage, entries[1..]).refused, who);
    }
  }

  /** Every account's students on the company chain and on their way there are at most 100. */
  ghost predicate RoomForAll(b: Storage, due: seq<Entry>) {
    forall who: AccountId :: |b.OwnedBy(who)| + CountFor(due, who) <= MAX_OWNED
  }

  /** Nothing is refused exactly when no account would go beyond 100. */
  lemma NoLossExactly(b: Storage, entries: seq<Entry>)
    requires Agreement(b)
    ensures ReceiveAll(b, entries).refused == [] <==> RoomForAll(b, entries)
  {
    var refused := ReceiveAll(b, entries).refused;
    if refused == [] {
      forall who: AccountId ensures |b.OwnedBy(who)| + CountFor(entries, who) <= MAX_OWNED {
        ExcessIsRefused(b, entries, who);
      }
    } else {
      ExcessIsRefused(b, entries, refused[0].owner);
    }
  }

  lemma EmptyParts<T>(x: seq<T>, y: seq<T>)
    requires x + y == []
    ensures x == [] && y == []
  {
    assert |x + y| == |x| + |y|;
  }

  lemma FirstAccepted(b: Storage, e: Entry, entries: seq<Entry>)
    requires ReceiveAll(b, [e] + entries).refused == []
    ensures var o := Admit(b, e.owner, e.student);
            && o.result.Ok? && ReceiveAll(o.storage, entries).refused == []
            && ReceiveAll(b, [e] + entries).b == ReceiveAll(o.storage, entries).b
  {
    var o := Admit(b, e.owner, e.student);
    ReceiveFirst(b, e, entries);
    EmptyParts(if o.result.Ok? then [] else [e], ReceiveAll(o.storage, entries).refused);
  }

  lemma AcceptedStorage(b: Storage, owner: AccountId, student: Student)
    requires Admit(b, owner, student).result.Ok? && b.count < U32_MAX
    ensures var s := Admit(b, owner, student).storage;
            && s.count == b.count + 1 && s.students == b.students[b.count := student]
            && s.byOwner == b.byOwner[owner := b.OwnedBy(owner) + [b.count]]
  {}

  lemma FirstAdmitted(b: Storage, entries: seq<Entry>)
    requires ReceiveAll(b, entries).refused == [] && b.count + |entries| <= U32_MAX && entries != []
    ensures var o := Admit(b, entries[0].owner, entries[0].student);
            && o.storage.count == b.count + 1 && o.storage.students == b.students[b.count := entries[0].student]
            && o.storage.byOwner == b.byOwner[entries[0].owner := b.OwnedBy(entries[0].owner) + [b.count]]
            && ReceiveAll(b, entries).b == ReceiveAll(o.storage, entries[1..]).b
            && ReceiveAll(o.storage, entries[1..]).refused == []
  {
    assert entries == [entries[0]] + entries[1..];
    FirstAccepted(b, entries[0], entries[1..]);
    AcceptedStorage(b, entries[0].owner, entries[0].student);
  }

  /** Arrivals take ids from the counter upwards and leave all others alone. */
  lemma {:induction false} Untouched(b: Storage, entries: seq<Entry>, id: u32)
    requires ReceiveAll(b, entries).refused == [] && b.count + |entries| <= U32_MAX && id < b.count
    ensures var r := ReceiveAll(b, entries).b;
            && r.count == b.count + |entries| && (id in r.students <==> id in b.students)
            && (id in b.students ==> r.students[id] == b.students[id])
            && forall who: AccountId :: id in b.OwnedBy(who) ==> id in r.OwnedBy(who)
    decreases |entries|
  {
    if entries != [] {
      FirstAdmitted(b, entries);
      Untouched(Admit(b, entries[0].owner, entries[0].student).storage, entries[1..], id);
    }
  }

  /** The entries are stored, record and owner, under the ids `from`, `from + 1` and so on. */
  ghost predicate StoredInOrder(b: Storage, from: u32, entries: seq<Entry>) {
    forall i :: 0 <= i < |entries| ==> StoredAt(b, from, entries, i)
  }

  ghost predicate StoredAt(b: Storage, from: u32, entries: seq<Entry>, i: nat)
    requires i < |entries|
  {
    && from + i <= U32_MAX && from + i in b.students && b.students[from + i] == entries[i].student
    && from + i in b.OwnedBy(entries[i].owner)
  }

  /**
   * From every reachable state: draining loses no message exactly when for every account the
   * students it has on the company chain and those on the way to it are at most 100; then
   * the arrivals are stored for their owners under the next ids in the order of graduation.
   */
  lemma DrainWithoutLoss(net: Network, events: seq<Event>, t: nat)
    requires LegalPlay(net, events) && t <= |events|
    ensures var y, l := At(net, events, t).sys, At(net, events, t).ledger;
            && |y.channel| <= |l.graduates|
            && (Drain(net, y).dropped == y.dropped <==> RoomForAll(y.b, Due(y, l)))
            && (RoomForAll(y.b, Due(y, l)) && y.b.count + |y.channel| <= U32_MAX ==>
                  StoredInOrder(Drain(net, y).b, y.b.count, Due(y, l)))
  {
    CoherentThroughout(net, events, t);
    DrainsWithoutLoss(net, At(net, events, t).sys, At(net, events, t).ledger);
  }

  lemma DrainsWithoutLoss(net: Network, y: System, l: Ledger)
    requires Agreement(y.b) && MatchesTail(Carrying(net.cfg), y.channel, l.graduates)
    ensures Drain(net, y).dropped == y.dropped <==> RoomForAll(y.b, Due(y, l))
    ensures RoomForAll(y.b, Due(y, l)) && y.b.count + |y.channel| <= U32_MAX ==>
              StoredInOrder(Drain(net, y).b, y.b.count, Due(y, l))
  {
    LossIsRefusal(net, y, Due(y, l));
    NoLossExactly(y.b, Due(y, l));
    if RoomForAll(y.b, Due(y, l)) && y.b.count + |y.channel| <= U32_MAX {
      IdsInOrder(y.b, Due(y, l));
    }
  }

  lemma FirstThenRest(b: Storage, from: u32, entries: seq<Entry>)
    requires entries != [] && from + |entries| <= U32_MAX
    requires StoredAt(b, from, entries, 0) && StoredInOrder(b, from + 1, entries[1..])
    ensures StoredInOrder(b, from, entries)
  {
    forall i | 0 <= i < |entries| ensures StoredAt(b, from, entries, i) {
      if i > 0 {
        assert StoredAt(b, from + 1, entries[1..], i - 1);
      }
    }
  }

  /** Without refusals the ids count up from the counter in order of arrival. */
  lemma {:induction false} IdsInOrder(b: Storage, entries: seq<Entry>)
    requires ReceiveAll(b, entries).refused == [] && b.count + |entries| <= U32_MAX
    ensures StoredInOrder(ReceiveAll(b, entries).b, b.count, entries)
    decreases |entries|
  {
    if entries != [] {
      var next := Admit(b, entries[0].owner, entries[0].student).storage;
      FirstAdmitted(b, entries);
      Untouched(next, entries[1..], b.count);
      IdsInOrder(next, entries[1..]);
      FirstThenRest(ReceiveAll(b, entries).b, b.count, entries);
    }
  }

  lemma LossIsRefusal(net: Network, y: System, entries: seq<Entry>)
    requires Matched(Carrying(net.cfg), y.channel, entries)
    ensures Drain(net, y).b == ReceiveAll(y.b, entries).b
    ensures Drain(net, y).dropped == y.dropped <==> ReceiveAll(y.b, entries).refused == []
  {
    DrainReceivesAll(net, y, entries);
  }

  /** `b` and the losses are what the admission of `entries` on an empty company chain leaves. */
  ghost predicate FoldOf(cfg: Config, b: Storage, dropped: seq<Outbound>, entries: seq<Entry>) {
    var r := ReceiveAll(GENESIS, entries);
    b == r.b && Matched(Carrying(cfg), dropped, r.refused)
  }

  /** The company chain and the losses hold what was delivered so far, and nothing else. */
  ghost predicate IsFold(cfg: Config, y: System, l: Ledger) {
    0 <= l.Head(y) && FoldOf(cfg, y.b, y.dropped, l.graduates[..l.Head(y)])
  }

  lemma FoldNext(net: Network, events: seq<Event>, t: nat)
    requires LegalPlay(net, events) && 0 < t <= |events| && !events[t - 1].OnB?
    requires IsFold(net.cfg, At(net, events, t - 1).sys, At(net, events, t - 1).ledger)
    ensures IsFold(net.cfg, At(net, events, t).sys, At(net, events, t).ledger)
  {
    CoherentThroughout(net, events, t - 1);
    AtLast(net, events, t);
    EventKeepsFold(net, At(net, events, t - 1).sys, At(net, events, t - 1).ledger, events[t - 1]);
  }

  lemma {:induction false} FoldSoFar(net: Network, events: seq<Event>, t: nat)
    requires LegalPlay(net, events) && t <= |events|
    requires forall i :: 0 <= i < |events| ==> !events[i].OnB?
    ensures IsFold(net.cfg, At(net, events, t).sys, At(net, events, t).ledger)
  {
    if t > 0 {
      FoldSoFar(net, events, t - 1);
      FoldNext(net, events, t);
    } else {
      AtStart(net, events);
    }
  }

  /**
   * While the company chain changes only by deliveries, chain and losses are at every moment
   * those of admitting the students delivered so far to an empty chain, and after draining
   * those of admitting all graduates, in the order of graduation: each student is stored or
   * its message is among the losses.
   */
  lemma CompanyIsFoldOfGraduates(net: Network, events: seq<Event>, t: nat)
    requires LegalPlay(net, events) && t <= |events|
    requires forall i :: 0 <= i < |events| ==> !events[i].OnB?
    ensures var y, l := At(net, events, t).sys, At(net, events, t).ledger;
            && 0 <= l.Head(y) <= |l.graduates|
            && FoldOf(net.cfg, y.b, y.dropped, l.graduates[..l.Head(y)])
            && FoldOf(net.cfg, Drain(net, y).b, Drain(net, y).dropped, l.graduates)
  {
    CoherentThroughout(net, events, t);
    FoldSoFar(net, events, t);
    DrainIsFold(net, At(net, events, t).sys, At(net, events, t).ledger);
  }

  lemma DrainIsFold(net: Network, y: System, l: Ledger)
    requires IsFold(net.cfg, y, l) && MatchesTail(Carrying(net.cfg), y.channel, l.graduates)
    ensures FoldOf(net.cfg, Drain(net, y).b, Drain(net, y).dropped, l.graduates)
  {
    DrainReceivesAll(net, y, Due(y, l));
    FoldGoesOn(net.cfg, y.b, y.dropped, l.graduates, l.Head(y), Drain(net, y).b, Drain(net, y).dropped);
  }

  /** Admitting the rest of the graduates completes the fold. */
  lemma FoldGoesOn(
      cfg: Config, b: Storage, dropped: seq<Outbound>, graduates: seq<Entry>, head: nat,
      b': Storage, dropped': seq<Outbound>)
    requires head <= |graduates| && FoldOf(cfg, b, dropped, graduates[..head])
    requires b' == ReceiveAll(b, graduates[head..]).b && dropped <= dropped'
    requires Matched(Carrying(cfg), dropped'[|dropped|..], ReceiveAll(b, graduates[head..]).refused)
    ensures FoldOf(cfg, b', dropped', graduates)
  {
    var before, due := graduates[..head], graduates[head..];
    assert before + due == graduates && dropped + dropped'[|dropped|..] == dropped';
    ReceiveInPortions(GENESIS, before, due);
    MatchedConcat(Carrying(cfg), dropped, ReceiveAll(GENESIS, before).refused,
                  dropped'[|dropped|..], ReceiveAll(b, due).refused);
  }

  lemma EventKeepsFold(net: Network, y: System, l: Ledger, event: Event)
    requires Coherent(net, y, l) && IsFold(net.cfg, y, l) && !event.OnB?
    ensures IsFold(net.cfg, Transition(net, y, event), Bookkeep(net, y, l, event))
  {
    if event.OnA? {
      CallKeepsFold(net, y, l, event.step);
    } else if y.channel != [] {
      DeliveryKeepsFold(net, y, l);
    }
  }

  lemma CallKeepsFold(net: Network, y: System, l: Ledger, step: Chain.Step)
    requires Invariant(net.cfg, y.a) && IsFold(net.cfg, y, l)
    ensures IsFold(net.cfg, Transition(net, y, OnA(step)), Bookkeep(net, y, l, OnA(step)))
  {
    OnAKeepsHead(net, y, l, step);
    var g, g' := l.graduates, Bookkeep(net, y, l, OnA(step)).graduates;
    assert g'[..l.Head(y)] == g[..l.Head(y)];
  }

  lemma DeliveryKeepsFold(net: Network, y: System, l: Ledger)
    requires Coherent(net, y, l) && IsFold(net.cfg, y, l) && y.channel != []
    ensures IsFold(net.cfg, Transition(net, y, Deliver), Bookkeep(net, y, l, Deliver))
  {
    HeadDelivery(net, y, l);
    MatchesTailDrop(Carrying(net.cfg), y.channel, l.graduates);
    FoldMovesOn(net.cfg, y, l, Transition(net, y, Deliver), Bookkeep(net, y, l, Deliver));
  }

  lemma FoldMovesOn(cfg: Config, y: System, l: Ledger, y': System, l': Ledger)
    requires IsFold(cfg, y, l) && y.channel != [] && Carries(cfg, y.channel[0], l.graduates[l.Head(y)])
    requires y'.channel == y.channel[1..] && l'.graduates == l.graduates
    requires var e := l.graduates[l.Head(y)];
             var o := Admit(y.b, e.owner, e.student);
             y'.b == o.storage && y'.dropped == if o.result.Ok? then y.dropped else y.dropped + [y.channel[0]]
    ensures IsFold(cfg, y', l')
  {
    var head := l.Head(y);
    assert l'.Head(y') == head + 1;
    OneLonger(l.graduates, head);
    FoldOneMore(cfg, y.b, y.dropped, l.graduates[..head], l.graduates[head], y.channel[0],
                y'.b, y'.dropped, l.graduates[..head + 1]);
  }

  lemma OneLonger<T>(xs: seq<T>, n: nat)
    requires n < |xs|
    ensures xs[..n + 1] == xs[..n] + [xs[n]]
  {}

  lemma FoldOneMore(
      cfg: Config, b: Storage, dropped: seq<Outbound>, entries: seq<Entry>, e: Entry, message: Outbound,
      b': Storage, dropped': seq<Outbound>, entries': seq<Entry>)
    requires FoldOf(cfg, b, dropped, entries) && Carries(cfg, message, e)
    requires var o := Admit(b, e.owner, e.student);
             b' == o.storage && dropped' == if o.result.Ok? then dropped else dropped + [message]
    requires entries' == entries + [e]
    ensures FoldOf(cfg, b', dropped', entries')
  {
    ReceiveInPortions(GENESIS, entries, [e]);
    ReceiveOne(b, e);
    var refused := ReceiveAll(GENESIS, entries).refused;
    assert refused + [] == refused;
    MatchedConcat(Carrying(cfg), dropped, refused, [message], [e]);
  }

  lemma ReceiveOne(b: Storage, e: Entry)
    ensures var o := Admit(b, e.owner, e.student);
            ReceiveAll(b, [e]) == Inbox(o.storage, if o.result.Ok? then [] else [e])
  {
    assert ReceiveAll(Admit(b, e.owner, e.student).storage, [e][1..]).refused == [];
  }
}
