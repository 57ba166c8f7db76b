/**
 * The two parachains and the one-way channel between them. The university chain `a`
 * sends, the company chain `b` receives; a message that `b` cannot admit is lost.
 */
module TwoChains {
  import opened Types
  import opened Lists
  import opened Xcm
  import opened PalletSpec
  import opened Registry
  import opened Consistency
  import opened Delivery
  import Chain

  /** `order` is the order in which the company chain's storage yields its accounts. */
  datatype Network = Network(cfg: Config, source: u32, order: set<AccountId> -> seq<AccountId>)

  datatype System = System(a: Storage, channel: seq<Outbound>, b: Storage, dropped: seq<Outbound>)

  datatype Event = OnA(step: Chain.Step) | OnB(step: Chain.Step) | Deliver

  /** No channel leaves the company chain. */
  function WithoutRoute(step: Chain.Step): Chain.Step {
    step.(env := step.env.(send := Refused))
  }

  /** What the message at the head of the channel does to the company chain. */
  function HeadOutcome(net: Network, y: System): Delivered
    requires y.channel != []
  {
    Execute(net.cfg, net.source, net.order(y.b.byOwner.Keys), y.channel[0], y.b)
  }

  function DeliverHead(net: Network, y: System): System
    requires y.channel != []
  {
    var d := HeadOutcome(net, y);
    if d.Accepted() then System(y.a, y.channel[1..], d.outcome.storage, y.dropped)
    else System(y.a, y.channel[1..], y.b, y.dropped + [y.channel[0]])
  }

  function Transition(net: Network, y: System, event: Event): System {
    match event
    case OnA(step) =>
      var o := Chain.After(net.cfg, y.a, step);
      y.(a := o.storage, channel := y.channel + o.sent)
    case OnB(step) => y.(b := Chain.After(net.cfg, y.b, WithoutRoute(step)).storage)
    case Deliver => if y.channel == [] then y else DeliverHead(net, y)
  }

  ghost predicate LegalEvent(net: Network, y: System, event: Event) {
    match event
    case OnA(step) => Chain.Legal(net.cfg, y.a, step)
    case OnB(step) => Chain.Legal(net.cfg, y.b, WithoutRoute(step))
    case Deliver => y.channel != [] ==> y.b.count < U32_MAX
  }

  const EMPTY := System(GENESIS, [], GENESIS, [])

  // Following every student

  /** Where a student is. Messages and losses are numbered from the start of the run. */
  datatype Place =
    | LiveOnA(id: u32)
    | InFlight(number: nat)
    | LiveOnB(id: u32)
    | DeletedOnA
    | DeletedOnB
    | Lost(number: nat)

  /**
   * The history of a run: the place of every student ever created, the students sent (as
   * they left) and the ids given out on the company chain by deliveries.
   */
  datatype Ledger = Ledger(places: seq<Place>, graduates: seq<Entry>, arrived: set<u32>) {
    /** The number of the message at the head of the channel. */
    function Head(y: System): int {
      |graduates| - |y.channel|
    }
  }

  function Move(places: seq<Place>, from: Place, to: Place): (r: seq<Place>)
    ensures |r| == |places|
    ensures forall i :: 0 <= i < |r| ==> r[i] == if places[i] == from then to else places[i]
  {
    seq(|places|, i requires 0 <= i < |places| => if places[i] == from then to else places[i])
  }

  /** What a transition adds to the history. */
  function Bookkeep(net: Network, y: System, l: Ledger, event: Event): Ledger {
    match event
    case OnA(step) =>
      if Chain.After(net.cfg, y.a, step).result.Err? then l
      else (match step.call
        case CreateStudent(_, _, _, _) => l.(places := l.places + [LiveOnA(y.a.count)])
        case ReceiveStudent(_, _) => l.(places := l.places + [LiveOnA(y.a.count)])
        case GraduateStudent(id) =>
          if id in y.a.students && step.origin.Signed? then
            l.(places := Move(l.places, LiveOnA(id), InFlight(|l.graduates|)),
               graduates := l.graduates + [Entry(step.origin.who, y.a.students[id].(hasGraduated := true))])
          else l
        case DeleteStudent(id) => l.(places := Move(l.places, LiveOnA(id), DeletedOnA))
        case DeleteAnyStudent(id) => l.(places := Move(l.places, LiveOnA(id), DeletedOnA))
        case UpdateStudent(_, _, _, _, _) => l)
    case OnB(step) =>
      if Chain.After(net.cfg, y.b, WithoutRoute(step)).result.Err? then l
      else (match step.call
        case CreateStudent(_, _, _, _) => l.(places := l.places + [LiveOnB(y.b.count)])
        case ReceiveStudent(_, _) => l.(places := l.places + [LiveOnB(y.b.count)])
        case DeleteStudent(id) => l.(places := Move(l.places, LiveOnB(id), DeletedOnB))
        case DeleteAnyStudent(id) => l.(places := Move(l.places, LiveOnB(id), DeletedOnB))
        case _ => l)
    case Deliver =>
      if y.channel == [] || l.Head(y) < 0 then l
      else if HeadOutcome(net, y).Accepted() then
        l.(places := Move(l.places, InFlight(l.Head(y)), LiveOnB(y.b.count)), arrived := l.arrived + {y.b.count})
      else l.(places := Move(l.places, InFlight(l.Head(y)), Lost(|y.dropped|)))
  }

  /** Only deleted students may share a place. */
  ghost predicate Apart(places: seq<Place>) {
    forall i, j :: 0 <= i < j < |places| && places[i] == places[j] ==> places[i].DeletedOnA? || places[i].DeletedOnB?
  }

  /** The places are exactly the live records of both chains, the messages `lo .. hi` and `lost` losses. */
  ghost predicate Accounts(places: seq<Place>, onA: set<u32>, onB: set<u32>, lo: int, hi: int, lost: int) {
    && Apart(places)
    && (forall id: u32 :: LiveOnA(id) in places <==> id in onA)
    && (forall id: u32 :: LiveOnB(id) in places <==> id in onB)
    && (forall n: nat :: InFlight(n) in places <==> lo <= n < hi)
    && (forall n: nat :: Lost(n) in places <==> n < lost)
  }

  lemma AppendPlace(places: seq<Place>, p: Place)
    requires Apart(places) && p !in places
    ensures Apart(places + [p])
    ensures forall q :: q in places + [p] <==> q in places || q == p
  {}

  lemma MovePlace(places: seq<Place>, from: Place, to: Place)
    requires Apart(places) && from in places && from != to && !from.DeletedOnA? && !from.DeletedOnB?
    requires to !in places || to.DeletedOnA? || to.DeletedOnB?
    ensures Apart(Move(places, from, to))
    ensures forall q :: q in Move(places, from, to) <==> q == to || (q in places && q != from)
  {
    var r := Move(places, from, to);
    var k :| 0 <= k < |places| && places[k] == from;
    assert r[k] == to;
    forall q ensures q in r <==> q == to || (q in places && q != from) {
      if q in places && q != from {
        var i :| 0 <= i < |places| && places[i] == q;
        assert r[i] == q;
      }
    }
  }

  /** `message` brings `entry`, marked as graduated. */
  ghost predicate Carries(cfg: Config, message: Outbound, entry: Entry) {
    && entry.student.Fits(cfg) && entry.student.hasGraduated
    && exists topic :: message == Parcel(cfg, entry.student, entry.owner, topic)
  }

  ghost function Carrying(cfg: Config): iset<(Outbound, Entry)> {
    iset m: Outbound, e: Entry | Carries(cfg, m, e) :: (m, e)
  }

  /** Every id given out by a delivery is below the counter, and its student, while live, is marked. */
  ghost predicate ArrivalsMarked(b: Storage, arrived: set<u32>) {
    forall id :: id in arrived ==> id < b.count && (id in b.students ==> b.students[id].hasGraduated)
  }

  /** The places of a system, given the numbers of its messages. */
  ghost predicate Accounted(y: System, l: Ledger) {
    Accounts(l.places, y.a.students.Keys, y.b.students.Keys, l.Head(y), |l.graduates|, |y.dropped|)
  }

  /** The system and its history tell the same story. */
  ghost predicate Coherent(net: Network, y: System, l: Ledger) {
    && Invariant(net.cfg, y.a) && Invariant(net.cfg, y.b)
    && MatchesTail(Carrying(net.cfg), y.channel, l.graduates)
    && Accounted(y, l)
    && ArrivalsMarked(y.b, l.arrived)
  }

  // One transition keeps the story straight

  /** What a graduation puts on the channel is the caller's own record, marked. */
  lemma GraduationCarries(net: Network, y: System, l: Ledger, step: Chain.Step)
    requires Invariant(net.cfg, y.a) && step.call.GraduateStudent? && Chain.After(net.cfg, y.a, step).result.Ok?
    ensures step.origin.Signed? && Abs(y.a).Owns(step.origin.who, step.call.id)
    ensures var o, e := Chain.After(net.cfg, y.a, step), Abs(y.a).live[step.call.id];
            var marked := Entry(e.owner, e.student.(hasGraduated := true));
            && Bookkeep(net, y, l, OnA(step)).graduates == l.graduates + [marked]
            && |o.sent| == 1 && Carries(net.cfg, o.sent[0], marked)
  {
    AbsRepresents(y.a);
    assert ListFor(y.a, Abs(y.a), step.origin.who);
    var o, e := Chain.After(net.cfg, y.a, step), Abs(y.a).live[step.call.id];
    assert o.sent[0] == Parcel(net.cfg, e.student.(hasGraduated := true), e.owner, step.env.send.topic);
  }

  lemma OnAKeepsCargo(net: Network, y: System, l: Ledger, step: Chain.Step)
    requires Invariant(net.cfg, y.a) && MatchesTail(Carrying(net.cfg), y.channel, l.graduates)
    ensures MatchesTail(Carrying(net.cfg),
                        Transition(net, y, OnA(step)).channel, Bookkeep(net, y, l, OnA(step)).graduates)
  {
    var o := Chain.After(net.cfg, y.a, step);
    AllOrNothing(net.cfg, step.env, y.a, step.origin, step.call);
    if step.call.GraduateStudent? && o.result.Ok? {
      GraduationCarries(net, y, l, step);
      var e := Abs(y.a).live[step.call.id];
      var marked := Entry(e.owner, e.student.(hasGraduated := true));
      MatchesTailAppend(Carrying(net.cfg), y.channel, l.graduates, o.sent[0], marked);
      assert o.sent == [o.sent[0]];
    } else {
      assert y.channel + o.sent == y.channel;
    }
  }

  lemma EnterA(places: seq<Place>, onA: set<u32>, onB: set<u32>, lo: int, hi: int, lost: int, id: u32)
    requires Accounts(places, onA, onB, lo, hi, lost) && id !in onA
    ensures Accounts(places + [LiveOnA(id)], onA + {id}, onB, lo, hi, lost)
  {
    AppendPlace(places, LiveOnA(id));
  }

  lemma EnterB(places: seq<Place>, onA: set<u32>, onB: set<u32>, lo: int, hi: int, lost: int, id: u32)
    requires Accounts(places, onA, onB, lo, hi, lost) && id !in onB
    ensures Accounts(places + [LiveOnB(id)], onA, onB + {id}, lo, hi, lost)
  {
    AppendPlace(places, LiveOnB(id));
  }

  lemma LeaveA(places: seq<Place>, onA: set<u32>, onB: set<u32>, lo: int, hi: int, lost: int, id: u32)
    requires Accounts(places, onA, onB, lo, hi, lost) && id in onA
    ensures Accounts(Move(places, LiveOnA(id), DeletedOnA), onA - {id}, onB, lo, hi, lost)
  {
    MovePlace(places, LiveOnA(id), DeletedOnA);
  }

  lemma LeaveB(places: seq<Place>, onA: set<u32>, onB: set<u32>, lo: int, hi: int, lost: int, id: u32)
    requires Accounts(places, onA, onB, lo, hi, lost) && id in onB
    ensures Accounts(Move(places, LiveOnB(id), DeletedOnB), onA, onB - {id}, lo, hi, lost)
  {
    MovePlace(places, LiveOnB(id), DeletedOnB);
  }

  lemma SendFromA(places: seq<Place>, onA: set<u32>, onB: set<u32>, lo: int, hi: nat, lost: int, id: u32)
    requires Accounts(places, onA, onB, lo, hi, lost) && lo <= hi && id in onA
    ensures Accounts(Move(places, LiveOnA(id), InFlight(hi)), onA - {id}, onB, lo, hi + 1, lost)
  {
    MovePlace(places, LiveOnA(id), InFlight(hi));
  }

  lemma OnAKeepsAccounts(net: Network, y: System, l: Ledger, step: Chain.Step)
    requires IdsBelowCount(y.a) && Accounted(y, l) && 0 <= l.Head(y)
    ensures Accounted(Transition(net, y, OnA(step)), Bookkeep(net, y, l, OnA(step)))
  {
    var o := Chain.After(net.cfg, y.a, step);
    AllOrNothing(net.cfg, step.env, y.a, step.origin, step.call);
    DispatchFrame(net.cfg, step.env, y.a, step.origin, step.call);
    if o.result.Ok? {
      var onA, onB := y.a.students.Keys, y.b.students.Keys;
      if step.call.Allocates() {
        EnterA(l.places, onA, onB, l.Head(y), |l.graduates|, |y.dropped|, y.a.count);
      } else if step.call.GraduateStudent? {
        SendFromA(l.places, onA, onB, l.Head(y), |l.graduates|, |y.dropped|, step.call.id);
        assert o.storage.students.Keys == onA - {step.call.id};
      } else if !step.call.UpdateStudent? {
        LeaveA(l.places, onA, onB, l.Head(y), |l.graduates|, |y.dropped|, step.call.id);
        assert o.storage.students.Keys == onA - {step.call.id};
      }
    }
  }

  lemma OnBKeepsAccounts(net: Network, y: System, l: Ledger, step: Chain.Step)
    requires IdsBelowCount(y.b) && Accounted(y, l)
    ensures Accounted(Transition(net, y, OnB(step)), Bookkeep(net, y, l, OnB(step)))
  {
    var o := Chain.After(net.cfg, y.b, WithoutRoute(step));
    DispatchFrame(net.cfg, WithoutRoute(step).env, y.b, step.origin, step.call);
    if o.result.Ok? {
      var onA, onB := y.a.students.Keys, y.b.students.Keys;
      if step.call.Allocates() {
        EnterB(l.places, onA, onB, l.Head(y), |l.graduates|, |y.dropped|, y.b.count);
      } else if step.call.DeleteStudent? || step.call.DeleteAnyStudent? {
        LeaveB(l.places, onA, onB, l.Head(y), |l.graduates|, |y.dropped|, step.call.id);
        assert o.storage.students.Keys == onB - {step.call.id};
      }
    }
  }

  lemma StepKeepsArrivals(net: Network, y: System, l: Ledger, step: Chain.Step)
    requires ArrivalsMarked(y.b, l.arrived) && Chain.Legal(net.cfg, y.b, step)
    ensures ArrivalsMarked(Chain.After(net.cfg, y.b, step).storage, l.arrived)
  {
    forall id | id in l.arrived
      ensures var b' := Chain.After(net.cfg, y.b, step).storage;
              id < b'.count && (id in b'.students ==> b'.students[id].hasGraduated)
    {
      Chain.StepReusesNothing(net.cfg, y.b, step, id);
    }
  }

  /** The head of the channel admits the student whose turn it is. */
  lemma HeadAdmits(net: Network, y: System, l: Ledger)
    requires Coherent(net, y, l) && y.channel != []
    ensures var e := l.graduates[l.Head(y)];
            && e.student.Fits(net.cfg) && e.student.hasGraduated
            && HeadOutcome(net, y) == Dispatched(Admit(y.b, e.owner, e.student))
  {
    var e := l.graduates[l.Head(y)];
    MatchesTailDrop(Carrying(net.cfg), y.channel, l.graduates);
    assert Carries(net.cfg, y.channel[0], e);
    var topic :| y.channel[0] == Parcel(net.cfg, e.student, e.owner, topic);
    ParcelAdmits(net.cfg, net.source, net.order(y.b.byOwner.Keys), e.student, e.owner, topic, y.b);
  }

  /** A delivery in terms of the student whose turn it is. */
  lemma HeadDelivery(net: Network, y: System, l: Ledger)
    requires Coherent(net, y, l) && y.channel != []
    ensures var e := l.graduates[l.Head(y)];
            var o, y', l' := Admit(y.b, e.owner, e.student), DeliverHead(net, y), Bookkeep(net, y, l, Deliver);
            && y'.a == y.a && y'.channel == y.channel[1..] && y'.b == o.storage && l'.graduates == l.graduates
            && y'.dropped == (if o.result.Ok? then y.dropped else y.dropped + [y.channel[0]])
            && l'.arrived == (if o.result.Ok? then l.arrived + {y.b.count} else l.arrived)
            && l'.places == Move(l.places, InFlight(l.Head(y)),
                                 if o.result.Ok? then LiveOnB(y.b.count) else Lost(|y.dropped|))
  {
    HeadAdmits(net, y, l);
  }

  lemma ArriveInPlace(places: seq<Place>, onA: set<u32>, onB: set<u32>, lo: nat, hi: int, lost: int, id: u32)
    requires Accounts(places, onA, onB, lo, hi, lost) && lo < hi && id !in onB
    ensures Accounts(Move(places, InFlight(lo), LiveOnB(id)), onA, onB + {id}, lo + 1, hi, lost)
  {
    MovePlace(places, InFlight(lo), LiveOnB(id));
  }

  lemma LoseInPlace(places: seq<Place>, onA: set<u32>, onB: set<u32>, lo: nat, hi: int, lost: nat)
    requires Accounts(places, onA, onB, lo, hi, lost) && lo < hi
    ensures Accounts(Move(places, InFlight(lo), Lost(lost)), onA, onB, lo + 1, hi, lost + 1)
  {
    MovePlace(places, InFlight(lo), Lost(lost));
  }

  lemma DeliverKeepsAccounts(net: Network, y: System, l: Ledger)
    requires Coherent(net, y, l) && y.channel != []
    ensures Accounted(DeliverHead(net, y), Bookkeep(net, y, l, Deliver))
  {
    HeadDelivery(net, y, l);
    var e := l.graduates[l.Head(y)];
    var onA, onB := y.a.students.Keys, y.b.students.Keys;
    if Admit(y.b, e.owner, e.student).result.Ok? {
      ArriveInPlace(l.places, onA, onB, l.Head(y), |l.graduates|, |y.dropped|, y.b.count);
    } else {
      LoseInPlace(l.places, onA, onB, l.Head(y), |l.graduates|, |y.dropped|);
    }
  }

  lemma AdmitKeepsArrivals(b: Storage, owner: AccountId, student: Student, arrived: set<u32>)
    requires ArrivalsMarked(b, arrived) && b.count < U32_MAX && student.hasGraduated
    ensures var o := Admit(b, owner, student);
            ArrivalsMarked(o.storage, if o.result.Ok? then arrived + {b.count} else arrived)
  {}

  lemma DeliverKeepsCoherence(net: Network, y: System, l: Ledger)
    requires Coherent(net, y, l) && y.channel != [] && y.b.count < U32_MAX
    ensures Coherent(net, DeliverHead(net, y), Bookkeep(net, y, l, Deliver))
  {
    HeadAdmits(net, y, l);
    HeadDelivery(net, y, l);
    MatchesTailDrop(Carrying(net.cfg), y.channel, l.graduates);
    DeliverKeepsAccounts(net, y, l);
    var e := l.graduates[l.Head(y)];
    AdmitKeepsInvariant(net.cfg, y.b, e.owner, e.student);
    AdmitKeepsArrivals(y.b, e.owner, e.student, l.arrived);
  }

  lemma OnAKeepsCoherence(net: Network, y: System, l: Ledger, step: Chain.Step)
    requires Coherent(net, y, l) && Chain.Legal(net.cfg, y.a, step)
    ensures Coherent(net, Transition(net, y, OnA(step)), Bookkeep(net, y, l, OnA(step)))
  {
    InvariantKeptExactly(net.cfg, step.env, y.a, step.origin, step.call);
    OnAKeepsCargo(net, y, l, step);
    OnAKeepsAccounts(net, y, l, step);
  }

  lemma OnBKeepsCoherence(net: Network, y: System, l: Ledger, step: Chain.Step)
    requires Coherent(net, y, l) && Chain.Legal(net.cfg, y.b, WithoutRoute(step))
    ensures Coherent(net, Transition(net, y, OnB(step)), Bookkeep(net, y, l, OnB(step)))
  {
    InvariantKeptExactly(net.cfg, WithoutRoute(step).env, y.b, step.origin, step.call);
    OnBKeepsAccounts(net, y, l, step);
    StepKeepsArrivals(net, y, l, WithoutRoute(step));
  }

  /** Every transition, with whatever outcome, keeps system and history coherent. */
  lemma TransitionKeepsCoherence(net: Network, y: System, l: Ledger, event: Event)
    requires Coherent(net, y, l) && LegalEvent(net, y, event)
    ensures Coherent(net, Transition(net, y, event), Bookkeep(net, y, l, event))
  {
    match event
    case OnA(step) => OnAKeepsCoherence(net, y, l, step);
    case OnB(step) => OnBKeepsCoherence(net, y, l, step);
    case Deliver =>
      if y.channel != [] {
        DeliverKeepsCoherence(net, y, l);
      }
  }

  /** A call on the university chain leaves the company chain and the turn of the messages alone. */
  lemma OnAKeepsHead(net: Network, y: System, l: Ledger, step: Chain.Step)
    requires Invariant(net.cfg, y.a)
    ensures var y', l' := Transition(net, y, OnA(step)), Bookkeep(net, y, l, OnA(step));
            y'.b == y.b && l'.Head(y') == l.Head(y) && l.graduates <= l'.graduates
  {
    AllOrNothing(net.cfg, step.env, y.a, step.origin, step.call);
    if step.call.GraduateStudent? && Chain.After(net.cfg, y.a, step).result.Ok? {
      GraduationCarries(net, y, l, step);
    }
  }

  // Each chain by itself

  /** A call that is refused for its origin. */
  ghost function Idle(s: Storage): Chain.Step {
    Chain.Step(Env(Refused, Listing(s.byOwner.Keys)), Unsigned, DeleteStudent(0))
  }

  /** The dispatch that an event is for the university chain. */
  ghost function StepOnA(y: System, event: Event): Chain.Step {
    if event.OnA? then event.step else Idle(y.a)
  }

  /** The dispatch that an event is for the company chain. */
  ghost function StepOnB(net: Network, y: System, l: Ledger, event: Event): Chain.Step {
    match event
    case OnA(_) => Idle(y.b)
    case OnB(step) => WithoutRoute(step)
    case Deliver =>
      if y.channel == [] || l.Head(y) < 0 then Idle(y.b)
      else
        var e := l.graduates[l.Head(y)];
        Chain.Step(Env(Refused, Listing(y.b.byOwner.Keys)), Signed(SiblingAccount(net.source)),
                   ReceiveStudent(e.student, e.owner))
  }

  /** Seen from either chain alone, every event is a legal dispatch; a delivery is one of `receive_student`. */
  lemma EventIsDispatch(net: Network, y: System, l: Ledger, event: Event)
    requires Coherent(net, y, l) && LegalEvent(net, y, event)
    ensures var y', onA, onB := Transition(net, y, event), StepOnA(y, event), StepOnB(net, y, l, event);
            && Chain.Legal(net.cfg, y.a, onA) && Chain.After(net.cfg, y.a, onA).storage == y'.a
            && Chain.Legal(net.cfg, y.b, onB) && Chain.After(net.cfg, y.b, onB).storage == y'.b
  {
    if event.Deliver? && y.channel != [] {
      DeliveryIsReceive(net, y, l, Listing(y.b.byOwner.Keys));
      HeadDelivery(net, y, l);
    }
  }

  /** Seen from the company chain, a delivery is a legal dispatch of `receive_student`. */
  lemma DeliveryIsReceive(net: Network, y: System, l: Ledger, owners: seq<AccountId>)
    requires Coherent(net, y, l) && y.channel != [] && y.b.count < U32_MAX && Enumerates(owners, y.b)
    ensures var e := l.graduates[l.Head(y)];
            var step := Chain.Step(Env(Refused, owners), Signed(SiblingAccount(net.source)),
                                   ReceiveStudent(e.student, e.owner));
            Chain.Legal(net.cfg, y.b, step) && Chain.After(net.cfg, y.b, step).storage == DeliverHead(net, y).b
  {
    var e := l.graduates[l.Head(y)];
    HeadAdmits(net, y, l);
    HeadDelivery(net, y, l);
    ReceiveAdmits(net.cfg, Env(Refused, owners), y.b, SiblingAccount(net.source), e.student, e.owner);
  }

  lemma ReceiveAdmits(cfg: Config, env: Env, s: Storage, who: AccountId, student: Student, owner: AccountId)
    ensures Dispatch(cfg, env, s, Signed(who), ReceiveStudent(student, owner)) == Admit(s, owner, student)
  {}
}
