/** Runs of the two-chain system from its empty start, with the history of every student. */
module Journeys {
  import opened Types
  import opened Scale
  import opened Xcm
  import opened PalletSpec
  import opened Registry
  import opened Consistency
  import opened TwoChains
  import Chain

  datatype Traced = Traced(sys: System, ledger: Ledger)

  const START := Traced(EMPTY, Ledger([], [], {}))

  function Advance(net: Network, x: Traced, event: Event): Traced {
    Traced(Transition(net, x.sys, event), Bookkeep(net, x.sys, x.ledger, event))
  }

  /** The system and its history before the first event and after each one. */
  function Play(net: Network, events: seq<Event>): (trace: seq<Traced>)
    ensures |trace| == |events| + 1
  {
    if events == [] then [START]
    else
      var n := |events| - 1;
      var before := Play(net, events[..n]);
      before + [Advance(net, before[n], events[n])]
  }

  function At(net: Network, events: seq<Event>, t: nat): Traced
    requires t <= |events|
  {
    Play(net, events)[t]
  }

  ghost predicate LegalPlay(net: Network, events: seq<Event>) {
    forall t :: 0 <= t < |events| ==> LegalEvent(net, At(net, events, t).sys, events[t])
  }

  lemma {:induction false} AtNext(net: Network, events: seq<Event>, t: nat)
    requires t < |events|
    ensures At(net, events, t + 1) == Advance(net, At(net, events, t), events[t])
    ensures LegalPlay(net, events) ==> LegalEvent(net, At(net, events, t).sys, events[t])
  {
    if t + 1 < |events| {
      AtNext(net, events[..|events| - 1], t);
    }
  }

  lemma AtLast(net: Network, events: seq<Event>, t: nat)
    requires 0 < t <= |events|
    ensures At(net, events, t) == Advance(net, At(net, events, t - 1), events[t - 1])
    ensures LegalPlay(net, events) ==> LegalEvent(net, At(net, events, t - 1).sys, events[t - 1])
  {
    AtNext(net, events, t - 1);
  }

  lemma {:induction false} AtStart(net: Network, events: seq<Event>)
    ensures At(net, events, 0) == START
  {
    if events != [] {
      AtStart(net, events[..|events| - 1]);
    }
  }

  lemma CoherentStart(net: Network, events: seq<Event>, t: nat)
    requires t == 0
    ensures Coherent(net, At(net, events, t).sys, At(net, events, t).ledger)
  {
    AtStart(net, events);
    GenesisInvariant(net.cfg);
  }

  lemma AdvanceKeepsCoherence(net: Network, x: Traced, event: Event, x': Traced)
    requires x' == Advance(net, x, event) && Coherent(net, x.sys, x.ledger) && LegalEvent(net, x.sys, event)
    ensures Coherent(net, x'.sys, x'.ledger)
  {
    TransitionKeepsCoherence(net, x.sys, x.ledger, event);
  }

  lemma CoherentNext(net: Network, events: seq<Event>, t: nat)
    requires LegalPlay(net, events) && 0 < t <= |events|
    requires Coherent(net, At(net, events, t - 1).sys, At(net, events, t - 1).ledger)
    ensures Coherent(net, At(net, events, t).sys, At(net, events, t).ledger)
  {
    AtLast(net, events, t);
    AdvanceKeepsCoherence(net, At(net, events, t - 1), events[t - 1], At(net, events, t));
  }

  lemma {:induction false} CoherentThroughout(net: Network, events: seq<Event>, t: nat)
    requires LegalPlay(net, events) && t <= |events|
    ensures Coherent(net, At(net, events, t).sys, At(net, events, t).ledger)
  {
    if t > 0 {
      CoherentThroughout(net, events, t - 1);
      CoherentNext(net, events, t);
    } else {
      CoherentStart(net, events, t);
    }
  }

  // Exactly one place

  ghost predicate HeldByOne(places: seq<Place>, p: Place) {
    exists i :: 0 <= i < |places| && places[i] == p && forall j :: 0 <= j < |places| && places[j] == p ==> j == i
  }

  /** The place of a student exists in the system. */
  predicate Real(y: System, l: Ledger, p: Place) {
    match p
    case LiveOnA(id) => id in y.a.students
    case InFlight(n) => l.Head(y) <= n < |l.graduates|
    case LiveOnB(id) => id in y.b.students
    case Lost(n) => n < |y.dropped|
    case _ => true
  }

  lemma HeldIsHeldByOne(places: seq<Place>, p: Place)
    requires Apart(places) && p in places && !p.DeletedOnA? && !p.DeletedOnB?
    ensures HeldByOne(places, p)
  {
    var i :| 0 <= i < |places| && places[i] == p;
    assert forall j :: 0 <= j < |places| && places[j] == p ==> !(i < j) && !(j < i);
  }

  /**
   * At every moment of every run each student ever created is in one place, and each live
   * record of either chain, each message on the channel and each lost message is one student's place.
   */
  lemma ExactlyOnePlace(net: Network, events: seq<Event>, t: nat)
    requires LegalPlay(net, events) && t <= |events|
    ensures var y, l := At(net, events, t).sys, At(net, events, t).ledger;
            && (forall i :: 0 <= i < |l.places| ==> Real(y, l, l.places[i]))
            && (forall p :: Real(y, l, p) && !p.DeletedOnA? && !p.DeletedOnB? ==> HeldByOne(l.places, p))
  {
    CoherentThroughout(net, events, t);
    var y, l := At(net, events, t).sys, At(net, events, t).ledger;
    PlacesAreReal(net, y, l);
    RealPlacesAreHeld(net, y, l);
  }

  lemma PlacesAreReal(net: Network, y: System, l: Ledger)
    requires Coherent(net, y, l)
    ensures forall i :: 0 <= i < |l.places| ==> Real(y, l, l.places[i])
  {
    forall i | 0 <= i < |l.places| ensures Real(y, l, l.places[i]) {
      assert l.places[i] in l.places;
    }
  }

  lemma RealPlacesAreHeld(net: Network, y: System, l: Ledger)
    requires Coherent(net, y, l)
    ensures forall p :: Real(y, l, p) && !p.DeletedOnA? && !p.DeletedOnB? ==> HeldByOne(l.places, p)
  {
    forall p | Real(y, l, p) && !p.DeletedOnA? && !p.DeletedOnB? ensures HeldByOne(l.places, p) {
      HeldIsHeldByOne(l.places, p);
    }
  }

  // The way of a student

  /** A student that was at `p` may be found at `q` later: nobody ever goes back. */
  predicate Leads(p: Place, q: Place) {
    || p == q
    || (match p
        case LiveOnA(_) => !q.LiveOnA?
        case InFlight(_) => q.LiveOnB? || q.DeletedOnB? || q.Lost?
        case LiveOnB(_) => q.DeletedOnB?
        case _ => false)
  }

  /** Where one event can take a student. */
  predicate LeadsAtOnce(p: Place, q: Place) {
    || p == q
    || (match p
        case LiveOnA(_) => q.InFlight? || q.DeletedOnA?
        case InFlight(_) => q.LiveOnB? || q.Lost?
        case LiveOnB(_) => q.DeletedOnB?
        case _ => false)
  }

  /** A student is still where it was exactly when what it left there is still there. */
  ghost predicate Onward(x1: Traced, x2: Traced, p: Place, q: Place) {
    && Leads(p, q)
    && (p.LiveOnA? ==> p.id < x1.sys.a.count && (q == p <==> p.id in x2.sys.a.students))
    && (p.InFlight? ==> (q == p <==> x2.ledger.Head(x2.sys) <= p.number))
    && (p.LiveOnB? ==> p.id < x1.sys.b.count && (q == p <==> p.id in x2.sys.b.students))
  }

  ghost predicate OnwardAll(x1: Traced, x2: Traced) {
    && |x1.ledger.places| <= |x2.ledger.places|
    && forall i :: 0 <= i < |x1.ledger.places| ==> Onward(x1, x2, x1.ledger.places[i], x2.ledger.places[i])
  }

  /** What the chains, the channel and the losses have become. */
  ghost predicate SystemLater(x1: Traced, x2: Traced) {
    && Chain.Later(x1.sys.a, x2.sys.a) && Chain.Later(x1.sys.b, x2.sys.b)
    && x1.sys.dropped <= x2.sys.dropped && x1.ledger.graduates <= x2.ledger.graduates
    && x1.ledger.Head(x1.sys) <= x2.ledger.Head(x2.sys)
  }

  /** What an event does to the places: those it takes a student from are empty afterwards. */
  lemma BookkeepingMovesOn(net: Network, y: System, l: Ledger, event: Event)
    ensures var l' := Bookkeep(net, y, l, event);
            && |l.places| <= |l'.places| && l.graduates <= l'.graduates
            && forall i :: 0 <= i < |l.places| ==>
                 && LeadsAtOnce(l.places[i], l'.places[i])
                 && (l.places[i] == l'.places[i] || l.places[i] !in l'.places)
  {}

  lemma EventMovesOn(net: Network, x: Traced, event: Event)
    requires Coherent(net, x.sys, x.ledger) && LegalEvent(net, x.sys, event)
    ensures SystemLater(x, Advance(net, x, event)) && OnwardAll(x, Advance(net, x, event))
  {
    var x' := Advance(net, x, event);
    BookkeepingMovesOn(net, x.sys, x.ledger, event);
    TransitionKeepsCoherence(net, x.sys, x.ledger, event);
    EventIsDispatch(net, x.sys, x.ledger, event);
    Chain.StepIsLater(net.cfg, x.sys.a, StepOnA(x.sys, event));
    Chain.StepIsLater(net.cfg, x.sys.b, StepOnB(net, x.sys, x.ledger, event));
    HeadNext(net, x.sys, x.ledger, event);
    LossesStay(net, x.sys, x.ledger, event);
    PlacesMoveOn(net, x, x');
  }

  lemma LossesStay(net: Network, y: System, l: Ledger, event: Event)
    requires Coherent(net, y, l)
    ensures y.dropped <= Transition(net, y, event).dropped
  {
    if event.Deliver? && y.channel != [] {
      HeadDelivery(net, y, l);
    }
  }

  lemma PlacesMoveOn(net: Network, x: Traced, x': Traced)
    requires Coherent(net, x.sys, x.ledger) && Coherent(net, x'.sys, x'.ledger) && SystemLater(x, x')
    requires |x.ledger.places| <= |x'.ledger.places|
    requires forall i :: 0 <= i < |x.ledger.places| ==>
               && Leads(x.ledger.places[i], x'.ledger.places[i])
               && (x.ledger.places[i] == x'.ledger.places[i] || x.ledger.places[i] !in x'.ledger.places)
    ensures OnwardAll(x, x')
  {
    forall i | 0 <= i < |x.ledger.places| ensures Onward(x, x', x.ledger.places[i], x'.ledger.places[i]) {
      assert x.ledger.places[i] in x.ledger.places && x'.ledger.places[i] in x'.ledger.places;
    }
  }

  lemma OnwardTransitive(x1: Traced, x2: Traced, x3: Traced)
    requires SystemLater(x1, x2) && SystemLater(x2, x3) && OnwardAll(x1, x2) && OnwardAll(x2, x3)
    ensures SystemLater(x1, x3) && OnwardAll(x1, x3)
  {
    assert x1.sys.dropped <= x3.sys.dropped && x1.ledger.graduates <= x3.ledger.graduates by {
      PrefixTransitive(x1.sys.dropped, x2.sys.dropped, x3.sys.dropped);
      PrefixTransitive(x1.ledger.graduates, x2.ledger.graduates, x3.ledger.graduates);
    }
    forall i | 0 <= i < |x1.ledger.places| ensures Onward(x1, x3, x1.ledger.places[i], x3.ledger.places[i]) {
      assert Onward(x1, x2, x1.ledger.places[i], x2.ledger.places[i]);
      assert Onward(x2, x3, x2.ledger.places[i], x3.ledger.places[i]);
    }
  }

  lemma PrefixTransitive<T>(xs: seq<T>, ys: seq<T>, zs: seq<T>)
    requires xs <= ys && ys <= zs
    ensures xs <= zs
  {
    assert forall i :: 0 <= i < |xs| ==> xs[i] == ys[i] == zs[i];
  }

  /**
   * From any moment of a run to any later one: a student that is on a chain stays there, with
   * its owner and any mark, exactly as long as its record does; once the record is gone it
   * never comes back under that id and the student is never on that chain under another;
   * deleted students stay deleted and lost messages stay lost.
   */
  lemma {:induction false} StudentsNeverReturn(net: Network, events: seq<Event>, t1: nat, t2: nat)
    requires LegalPlay(net, events) && t1 <= t2 <= |events|
    ensures SystemLater(At(net, events, t1), At(net, events, t2))
    ensures OnwardAll(At(net, events, t1), At(net, events, t2))
  {
    CoherentThroughout(net, events, t1);
    if t1 == t2 {
      PlacesMoveOn(net, At(net, events, t1), At(net, events, t1));
    } else {
      StudentsNeverReturn(net, events, t1, t2 - 1);
      CoherentThroughout(net, events, t2 - 1);
      AtNext(net, events, t2 - 1);
      EventMovesOn(net, At(net, events, t2 - 1), events[t2 - 1]);
      OnwardTransitive(At(net, events, t1), At(net, events, t2 - 1), At(net, events, t2));
    }
  }

  // Event by event

  /** Does a call take student `id` off its chain by deletion? */
  predicate Deletes(call: Call, id: u32) {
    (call.DeleteStudent? || call.DeleteAnyStudent?) && call.id == id
  }

  /** Where event `event` takes the student at `p`. */
  ghost predicate FollowsEvent(net: Network, y: System, l: Ledger, event: Event, p: Place, q: Place)
    requires y.channel != [] ==> 0 <= l.Head(y)
  {
    match event
    case OnA(step) =>
      if Chain.After(net.cfg, y.a, step).result == Ok && p.LiveOnA? then
        if Deletes(step.call, p.id) then q == DeletedOnA
        else if step.call == GraduateStudent(p.id) then q == InFlight(|l.graduates|)
        else q == p
      else q == p
    case OnB(step) =>
      if Chain.After(net.cfg, y.b, WithoutRoute(step)).result == Ok && p.LiveOnB? && Deletes(step.call, p.id) then
        q == DeletedOnB
      else q == p
    case Deliver =>
      if y.channel != [] && p == InFlight(l.Head(y)) then
        if |y.b.OwnedBy(l.graduates[l.Head(y)].owner)| < 100 then q == LiveOnB(y.b.count)
        else q == Lost(|y.dropped|)
      else q == p
  }

  lemma CallOnAMoves(net: Network, y: System, l: Ledger, event: Event, i: nat)
    requires Coherent(net, y, l) && i < |l.places| && event.OnA?
    ensures var l' := Bookkeep(net, y, l, event);
            i < |l'.places| && FollowsEvent(net, y, l, event, l.places[i], l'.places[i])
  {
    DispatchFrame(net.cfg, event.step.env, y.a, event.step.origin, event.step.call);
  }

  lemma CallOnBMoves(net: Network, y: System, l: Ledger, event: Event, i: nat)
    requires Coherent(net, y, l) && i < |l.places| && event.OnB?
    ensures var l' := Bookkeep(net, y, l, event);
            i < |l'.places| && FollowsEvent(net, y, l, event, l.places[i], l'.places[i])
  {}

  lemma DeliveryMoves(net: Network, y: System, l: Ledger, event: Event, i: nat)
    requires Coherent(net, y, l) && i < |l.places| && event.Deliver?
    ensures var l' := Bookkeep(net, y, l, event);
            i < |l'.places| && FollowsEvent(net, y, l, event, l.places[i], l'.places[i])
  {
    if y.channel != [] {
      HeadDelivery(net, y, l);
    }
  }

  lemma StudentFollowsEvent(net: Network, y: System, l: Ledger, event: Event, i: nat)
    requires Coherent(net, y, l) && i < |l.places|
    ensures var l' := Bookkeep(net, y, l, event);
            i < |l'.places| && FollowsEvent(net, y, l, event, l.places[i], l'.places[i])
  {
    match event
    case OnA(_) => CallOnAMoves(net, y, l, event, i);
    case OnB(_) => CallOnBMoves(net, y, l, event, i);
    case Deliver => DeliveryMoves(net, y, l, event, i);
  }

  /**
   * In every run each event moves exactly the student it is about: a deletion on either chain
   * to the deleted of that chain, a graduation onto the channel, a delivery onto the company
   * chain or to the losses. All others stay where they are.
   */
  lemma StudentsFollowEvents(net: Network, events: seq<Event>, t: nat, i: nat)
    requires LegalPlay(net, events) && t < |events| && i < |At(net, events, t).ledger.places|
    ensures var x, x' := At(net, events, t), At(net, events, t + 1);
            && 0 <= x.ledger.Head(x.sys) && i < |x'.ledger.places|
            && FollowsEvent(net, x.sys, x.ledger, events[t], x.ledger.places[i], x'.ledger.places[i])
  {
    CoherentThroughout(net, events, t);
    AtNext(net, events, t);
    StudentFollowsEvent(net, At(net, events, t).sys, At(net, events, t).ledger, events[t], i);
  }

  // End to end

  /** The event at time `t` graduates a student, which leaves as message `n`. */
  ghost predicate SendsAt(net: Network, events: seq<Event>, t: nat, n: int) {
    t < |events| && Graduates(net, At(net, events, t).sys, events[t]) && |At(net, events, t).ledger.graduates| == n
  }

  predicate Graduates(net: Network, y: System, event: Event) {
    event.OnA? && event.step.call.GraduateStudent? && Chain.After(net.cfg, y.a, event.step).result.Ok?
  }

  /** The entry that a graduation takes off the university chain, marked. */
  ghost function Graduate(net: Network, y: System, event: Event): Entry
    requires Invariant(net.cfg, y.a) && Graduates(net, y, event)
  {
    GraduationCarries(net, y, START.ledger, event.step);
    var e := Abs(y.a).live[event.step.call.id];
    Entry(e.owner, e.student.(hasGraduated := true))
  }

  /** `n` is the number of the message that graduation `e` at time `t` sends. */
  ghost predicate SentAs(net: Network, events: seq<Event>, t: nat, n: int, e: Entry) {
    && SendsAt(net, events, t, n) && Invariant(net.cfg, At(net, events, t).sys.a)
    && e == Graduate(net, At(net, events, t).sys, events[t])
  }

  lemma GraduatesGrow(net: Network, y: System, l: Ledger, event: Event)
    requires Invariant(net.cfg, y.a)
    ensures Bookkeep(net, y, l, event).graduates ==
              l.graduates + if Graduates(net, y, event) then [Graduate(net, y, event)] else []
  {
    if Graduates(net, y, event) {
      GraduationCarries(net, y, l, event.step);
    }
  }

  lemma NextMessage(net: Network, events: seq<Event>, t: nat)
    requires LegalPlay(net, events) && 0 < t <= |events|
    ensures var g, g' := At(net, events, t - 1).ledger.graduates, At(net, events, t).ledger.graduates;
            g' == g || exists e :: g' == g + [e] && SentAs(net, events, t - 1, |g|, e)
  {
    CoherentThroughout(net, events, t - 1);
    AtLast(net, events, t);
    var x, event := At(net, events, t - 1), events[t - 1];
    GraduatesGrow(net, x.sys, x.ledger, event);
    if Graduates(net, x.sys, event) {
      assert SentAs(net, events, t - 1, |x.ledger.graduates|, Graduate(net, x.sys, event));
    }
  }

  /** Some graduation before time `t` sent message `n` for `e`. */
  ghost predicate WasSent(net: Network, events: seq<Event>, t: nat, n: int, e: Entry) {
    exists t1: nat :: t1 < t && SentAs(net, events, t1, n, e)
  }

  /** The students on record are those that graduated before time `t`, each under the number of its message. */
  ghost predicate AllSent(net: Network, events: seq<Event>, t: nat, graduates: seq<Entry>) {
    forall n :: 0 <= n < |graduates| ==> WasSent(net, events, t, n, graduates[n])
  }

  lemma OneMoreSent(net: Network, events: seq<Event>, t: nat, g: seq<Entry>, g': seq<Entry>)
    requires t > 0 && AllSent(net, events, t - 1, g)
    requires g' == g || exists e :: g' == g + [e] && SentAs(net, events, t - 1, |g|, e)
    ensures AllSent(net, events, t, g')
  {
    forall n | 0 <= n < |g'| ensures WasSent(net, events, t, n, g'[n]) {
      if n < |g| {
        assert g'[n] == g[n] && WasSent(net, events, t - 1, n, g[n]);
        var t1: nat :| t1 < t - 1 && SentAs(net, events, t1, n, g[n]);
      } else {
        assert SentAs(net, events, t - 1, n, g'[n]);
      }
    }
  }

  /** Every message ever sent was sent by a graduation, and is on record as that student. */
  lemma {:induction false} EveryMessageWasSent(net: Network, events: seq<Event>, t: nat)
    requires LegalPlay(net, events) && t <= |events|
    ensures AllSent(net, events, t, At(net, events, t).ledger.graduates)
  {
    if t > 0 {
      EveryMessageWasSent(net, events, t - 1);
      AllSentNext(net, events, t);
    } else {
      AtStart(net, events);
    }
  }

  lemma AllSentNext(net: Network, events: seq<Event>, t: nat)
    requires LegalPlay(net, events) && 0 < t <= |events|
    requires AllSent(net, events, t - 1, At(net, events, t - 1).ledger.graduates)
    ensures AllSent(net, events, t, At(net, events, t).ledger.graduates)
  {
    NextMessage(net, events, t);
    OneMoreSent(net, events, t, At(net, events, t - 1).ledger.graduates, At(net, events, t).ledger.graduates);
  }

  /** No two graduations send the same message. */
  lemma SentOnce(net: Network, events: seq<Event>, t1: nat, t2: nat, n: nat)
    requires LegalPlay(net, events) && SendsAt(net, events, t1, n) && SendsAt(net, events, t2, n)
    ensures t1 == t2
  {
    if t1 < t2 {
      LaterMessage(net, events, t1, t2);
    } else if t2 < t1 {
      LaterMessage(net, events, t2, t1);
    }
  }

  lemma LaterMessage(net: Network, events: seq<Event>, t1: nat, t2: nat)
    requires LegalPlay(net, events) && t1 < t2 <= |events|
    requires SendsAt(net, events, t1, |At(net, events, t1).ledger.graduates|)
    ensures |At(net, events, t1).ledger.graduates| < |At(net, events, t2).ledger.graduates|
  {
    CoherentThroughout(net, events, t1);
    AtNext(net, events, t1);
    StudentsNeverReturn(net, events, t1 + 1, t2);
    GraduatesGrow(net, At(net, events, t1).sys, At(net, events, t1).ledger, events[t1]);
  }

  /**
   * The head of the channel has been delivered: the student is stored with the owner and
   * fields of `e` under the next id and nothing else is changed, or its owner has 100
   * students there and the message is added to the losses.
   */
  ghost predicate DeliveredAs(y: System, y': System, e: Entry)
    requires y.channel != []
  {
    && y'.a == y.a && y'.channel == y.channel[1..] && Agreement(y.b) && Agreement(y'.b)
    && if |Abs(y.b).Owned(e.owner)| == MAX_OWNED then
         y'.b == y.b && y'.dropped == y.dropped + [y.channel[0]]
       else
         && Abs(y'.b) == Registry(NextId(y.b.count), Abs(y.b).live[y.b.count := e])
         && y'.dropped == y.dropped
  }

  lemma HeadIsDelivered(net: Network, y: System, l: Ledger)
    requires Coherent(net, y, l) && y.channel != []
    ensures DeliveredAs(y, DeliverHead(net, y), l.graduates[l.Head(y)])
  {
    var e := l.graduates[l.Head(y)];
    HeadDelivery(net, y, l);
    AdmissionRefusedExactly(y.b, e.owner, e.student);
    assert y.b.count !in y.b.students;
    AdmitAddsEntry(y.b, e.owner, e.student);
  }

  /**
   * Every delivery is the delivery of one earlier graduation, the one that sent the message
   * with that number, and stores the student that graduated, with the owner and fields it had
   * and the mark set, or loses exactly this message because its owner has 100 students there.
   */
  lemma EndToEndFidelity(net: Network, events: seq<Event>, t2: nat)
    requires LegalPlay(net, events) && t2 < |events| && Delivers(At(net, events, t2).sys, events[t2])
    ensures var x, y' := At(net, events, t2), At(net, events, t2 + 1).sys;
            exists t1: nat, e ::
              t1 < t2 && SentAs(net, events, t1, x.ledger.Head(x.sys), e) && DeliveredAs(x.sys, y', e)
  {
    var x := At(net, events, t2);
    CoherentThroughout(net, events, t2);
    AtNext(net, events, t2);
    HeadIsDelivered(net, x.sys, x.ledger);
    EveryMessageWasSent(net, events, t2);
    assert 0 <= x.ledger.Head(x.sys) < |x.ledger.graduates|;
  }

  /** `message` goes to the destination parachain, for free, and carries `e` as a call that delivers it. */
  ghost predicate IsAddressed(cfg: Config, message: Outbound, e: Entry) {
    && message.dest == Location(1, [Parachain(cfg.destinationPara)])
    && exists topic: seq<byte> ::
         message.program == [ UnpaidExecution(Unlimited, None),
                              Transact(SovereignAccount, Some(Weight(1_000_000_000, 65_536)),
                                       EncodeRuntimeCall(ReceiveStudent(e.student, e.owner))),
                              SetTopic(topic) ]
  }

  lemma CarriedIsAddressed(cfg: Config, message: Outbound, e: Entry)
    requires Carries(cfg, message, e)
    ensures IsAddressed(cfg, message, e)
  {
    var topic :| message == Parcel(cfg, e.student, e.owner, topic);
    assert message.program ==
             [ UnpaidExecution(Unlimited, None),
               Transact(SovereignAccount, Some(Weight(1_000_000_000, 65_536)),
                        EncodeRuntimeCall(ReceiveStudent(e.student, e.owner))),
               SetTopic(topic) ];
  }

  /**
   * In every run each message on the channel goes to the destination parachain and carries
   * the graduate it was sent for.
   */
  lemma ChannelIsAddressed(net: Network, events: seq<Event>, t: nat, k: nat)
    requires LegalPlay(net, events) && t <= |events| && k < |At(net, events, t).sys.channel|
    ensures var x := At(net, events, t);
            && 0 <= x.ledger.Head(x.sys) && x.ledger.Head(x.sys) + k < |x.ledger.graduates|
            && IsAddressed(net.cfg, x.sys.channel[k], x.ledger.graduates[x.ledger.Head(x.sys) + k])
  {
    CoherentThroughout(net, events, t);
    var x := At(net, events, t);
    var due := x.ledger.graduates[x.ledger.Head(x.sys)..];
    assert (x.sys.channel[k], due[k]) in Carrying(net.cfg);
    CarriedIsAddressed(net.cfg, x.sys.channel[k], due[k]);
  }

  // One hop only

  /** A student that came by delivery is never sent on, even by a router that would take the message. */
  lemma ArrivedNeverLeaves(net: Network, events: seq<Event>, t: nat, env: Env, who: AccountId, id: u32)
    requires LegalPlay(net, events) && t <= |events| && id in At(net, events, t).ledger.arrived
    ensures var b := At(net, events, t).sys.b;
            Dispatch(net.cfg, env, b, Signed(who), GraduateStudent(id)) ==
              Fail(b, if id in b.OwnedBy(who) then AlreadyGraduated else NotStudentOwner)
  {
    CoherentThroughout(net, events, t);
  }

  /** While nobody calls `receive_student` on the university chain, no student there is marked. */
  lemma {:induction false} UniversityHasNoGraduates(net: Network, events: seq<Event>, t: nat)
    requires t <= |events|
    requires forall i :: 0 <= i < |events| && events[i].OnA? ==> !events[i].step.call.ReceiveStudent?
    ensures Chain.NoneGraduated(At(net, events, t).sys.a)
    ensures t < |events| && events[t].OnA? ==>
              Chain.After(net.cfg, At(net, events, t).sys.a, events[t].step).result != Err(AlreadyGraduated)
  {
    if t > 0 {
      UniversityHasNoGraduates(net, events, t - 1);
      AtNext(net, events, t - 1);
      if events[t - 1].OnA? {
        Chain.NoneGraduatedKept(net.cfg, At(net, events, t - 1).sys.a, events[t - 1].step);
      }
    } else {
      AtStart(net, events);
    }
    if t < |events| && events[t].OnA? {
      Chain.NoneGraduatedKept(net.cfg, At(net, events, t).sys.a, events[t].step);
    }
  }

  // First in, first out

  /** The deliveries up to time `t` that found a message on the channel. */
  function Deliveries(net: Network, events: seq<Event>, t: nat): nat
    requires t <= |events|
  {
    if t == 0 then 0
    else Deliveries(net, events, t - 1) + if Delivers(At(net, events, t - 1).sys, events[t - 1]) then 1 else 0
  }

  predicate Delivers(y: System, event: Event) {
    event.Deliver? && y.channel != []
  }

  lemma HeadNext(net: Network, y: System, l: Ledger, event: Event)
    requires Coherent(net, y, l)
    ensures Bookkeep(net, y, l, event).Head(Transition(net, y, event)) ==
              l.Head(y) + if Delivers(y, event) then 1 else 0
  {
    match event
    case OnA(step) => OnAKeepsHead(net, y, l, step);
    case OnB(_) =>
    case Deliver =>
      if y.channel != [] {
        HeadDelivery(net, y, l);
      }
  }

  lemma HeadAdvances(net: Network, x: Traced, event: Event, x': Traced)
    requires x' == Advance(net, x, event) && Coherent(net, x.sys, x.ledger)
    ensures x'.ledger.Head(x'.sys) == x.ledger.Head(x.sys) + if Delivers(x.sys, event) then 1 else 0
  {
    HeadNext(net, x.sys, x.ledger, event);
  }

  lemma HeadMoves(net: Network, events: seq<Event>, t: nat)
    requires LegalPlay(net, events) && 0 < t <= |events|
    requires At(net, events, t - 1).ledger.Head(At(net, events, t - 1).sys) == Deliveries(net, events, t - 1)
    ensures At(net, events, t).ledger.Head(At(net, events, t).sys) == Deliveries(net, events, t)
  {
    HeadLast(net, events, t);
  }

  lemma HeadLast(net: Network, events: seq<Event>, t: nat)
    requires LegalPlay(net, events) && 0 < t <= |events|
    ensures var x, x' := At(net, events, t - 1), At(net, events, t);
            x'.ledger.Head(x'.sys) == x.ledger.Head(x.sys) + if Delivers(x.sys, events[t - 1]) then 1 else 0
  {
    CoherentThroughout(net, events, t - 1);
    AtLast(net, events, t);
    HeadAdvances(net, At(net, events, t - 1), events[t - 1], At(net, events, t));
  }

  /** Messages are delivered in the order of graduation: the head of the channel has the number of deliveries so far. */
  lemma {:induction false} DeliveredInOrder(net: Network, events: seq<Event>, t: nat)
    requires LegalPlay(net, events) && t <= |events|
    ensures At(net, events, t).ledger.Head(At(net, events, t).sys) == Deliveries(net, events, t)
  {
    if t > 0 {
      DeliveredInOrder(net, events, t - 1);
      HeadMoves(net, events, t);
    } else {
      AtStart(net, events);
    }
  }
}
