/** Two complete runs from the empty start: one takes a student across, the other loses it. */
module Examples {
  import opened Types
  import opened Lists
  import opened Xcm
  import opened PalletSpec
  import opened Delivery
  import opened TwoChains
  import opened Journeys
  import Chain

  function Newcomer(graduated: bool): Student {
    Student([], [], 20, Other, graduated)
  }

  function CreateNewcomer(owner: AccountId, env: Env): Chain.Step {
    Chain.Step(env, Signed(owner), CreateStudent([], [], 20, Other))
  }

  /** Alice creates a student and graduates it; then the message is delivered. */
  function JourneyEvents(alice: AccountId, topic: seq<byte>): seq<Event> {
    [ OnA(CreateNewcomer(alice, Env(Accepted(topic), []))),
      OnA(Chain.Step(Env(Accepted(topic), [alice]), Signed(alice), GraduateStudent(0))),
      Deliver ]
  }

  /** The university chain after the creation, and after the graduation. */
  function Enrolled(alice: AccountId): Storage {
    Storage(1, map[0 := Newcomer(false)], map[alice := [0]])
  }

  function Gone(alice: AccountId): Storage {
    Storage(1, map[], map[alice := []])
  }

  function Message(net: Network, alice: AccountId, topic: seq<byte>): Outbound {
    Parcel(net.cfg, Newcomer(true), alice, topic)
  }

  /** The events are a legal run that ends in `y`. */
  ghost predicate Reaches(net: Network, events: seq<Event>, y: System) {
    LegalPlay(net, events) && At(net, events, |events|).sys == y
  }

  ghost predicate LegalTo(net: Network, y: System, event: Event, y': System) {
    LegalEvent(net, y, event) && Transition(net, y, event) == y'
  }

  /** A company chain on which `owner` has the students `0 .. n`. */
  function House(owner: AccountId, n: nat): Storage
    requires n <= MAX_OWNED
  {
    Storage(n, map id | id in Ids(n) :: Newcomer(false), if n == 0 then map[] else map[owner := Ids(n)])
  }

  function Ids(n: nat): (ids: seq<u32>)
    requires n <= MAX_OWNED
  {
    seq(n, i requires 0 <= i < n => i)
  }

  /** The owner creates the student number `n`, counted from 1, on the company chain. */
  function HouseEvent(owner: AccountId, n: nat): Event {
    OnB(CreateNewcomer(owner, Env(Refused, if n == 1 then [] else [owner])))
  }

  function HouseEvents(owner: AccountId, n: nat): seq<Event> {
    seq(n, i requires 0 <= i < n => HouseEvent(owner, i + 1))
  }

  function HouseSystem(owner: AccountId, n: nat): System
    requires n <= MAX_OWNED
  {
    System(GENESIS, [], House(owner, n), [])
  }

  lemma HouseAdmits(owner: AccountId, n: nat)
    requires 0 < n <= MAX_OWNED
    ensures Admit(House(owner, n - 1), owner, Newcomer(false)) == Done(House(owner, n))
  {
    var s := House(owner, n - 1);
    assert s.OwnedBy(owner) == Ids(n - 1) && Ids(n - 1) + [n - 1] == Ids(n);
    assert s.students[n - 1 := Newcomer(false)] == House(owner, n).students;
    assert s.byOwner[owner := Ids(n)] == House(owner, n).byOwner;
  }

  lemma HouseGrows(net: Network, owner: AccountId, n: nat)
    requires 0 < n <= MAX_OWNED
    ensures LegalTo(net, HouseSystem(owner, n - 1), HouseEvent(owner, n), HouseSystem(owner, n))
  {
    HouseAdmits(owner, n);
    assert Elements<AccountId>([]) == {} && Elements([owner]) == {owner};
  }

  // The three events of the journey, whatever the company chain is

  function Waiting(alice: AccountId, b: Storage): System {
    System(Enrolled(alice), [], b, [])
  }

  function OnTheWay(net: Network, alice: AccountId, topic: seq<byte>, b: Storage): System {
    System(Gone(alice), [Message(net, alice, topic)], b, [])
  }

  function Through(net: Network, alice: AccountId, topic: seq<byte>, b: Storage): System {
    var o := Admit(b, alice, Newcomer(true));
    System(Gone(alice), [], o.storage, if o.result.Ok? then [] else [Message(net, alice, topic)])
  }

  lemma FirstAdmission(alice: AccountId, graduated: bool)
    ensures Admit(GENESIS, alice, Newcomer(graduated)) ==
              Done(Storage(1, map[0 := Newcomer(graduated)], map[alice := [0]]))
  {
    assert GENESIS.OwnedBy(alice) + [0] == [0];
    assert GENESIS.students[0 := Newcomer(graduated)] == map[0 := Newcomer(graduated)];
    assert GENESIS.byOwner[alice := [0]] == map[alice := [0]];
  }

  lemma Creation(net: Network, alice: AccountId, topic: seq<byte>, b: Storage)
    ensures LegalTo(net, System(GENESIS, [], b, []), JourneyEvents(alice, topic)[0], Waiting(alice, b))
  {
    assert Elements<AccountId>([]) == {};
    FirstAdmission(alice, false);
  }

  lemma Graduation(net: Network, alice: AccountId, topic: seq<byte>, b: Storage)
    ensures LegalTo(net, Waiting(alice, b), JourneyEvents(alice, topic)[1], OnTheWay(net, alice, topic, b))
  {
    var s := Enrolled(alice);
    assert s.OwnedBy(alice) == [0] && Without([0], 0) == [] && Elements([alice]) == {alice};
    assert s.students - {0} == map[] && s.byOwner[alice := []] == map[alice := []];
    assert [] + [Message(net, alice, topic)] == [Message(net, alice, topic)];
  }

  lemma MessageAdmits(net: Network, alice: AccountId, topic: seq<byte>, b: Storage)
    ensures HeadOutcome(net, OnTheWay(net, alice, topic, b)) == Dispatched(Admit(b, alice, Newcomer(true)))
  {
    ParcelAdmits(net.cfg, net.source, net.order(b.byOwner.Keys), Newcomer(true), alice, topic, b);
  }

  lemma Arrival(net: Network, alice: AccountId, topic: seq<byte>, b: Storage)
    requires b.count < U32_MAX
    ensures LegalTo(net, OnTheWay(net, alice, topic, b), JourneyEvents(alice, topic)[2], Through(net, alice, topic, b))
  {
    var y := OnTheWay(net, alice, topic, b);
    MessageAdmits(net, alice, topic, b);
    assert y.channel[1..] == [] && y.dropped + [y.channel[0]] == y.channel;
  }

  lemma OneMore(
      net: Network, events: seq<Event>, y: System, event: Event, y': System, longer: seq<Event>)
    requires Reaches(net, events, y) && LegalTo(net, y, event, y') && longer == events + [event]
    ensures Reaches(net, longer, y')
  {
    assert longer[..|events|] == events;
    forall t | 0 <= t < |longer| ensures LegalEvent(net, At(net, longer, t).sys, longer[t]) {
      assert At(net, longer, t) == At(net, events, t);
    }
  }

  /** The journey after a run that has touched the company chain only. */
  lemma JourneyFrom(net: Network, alice: AccountId, topic: seq<byte>, before: seq<Event>, b: Storage)
    requires Reaches(net, before, System(GENESIS, [], b, [])) && b.count < U32_MAX
    ensures Reaches(net, before + JourneyEvents(alice, topic), Through(net, alice, topic, b))
  {
    var e := JourneyEvents(alice, topic);
    var after0, after1 := before + [e[0]], before + [e[0], e[1]];
    assert after1 == after0 + [e[1]] && before + e == after1 + [e[2]];
    FirstOfThree(net, alice, topic, before, b, after0);
    SecondOfThree(net, alice, topic, after0, b, after1);
    ThirdOfThree(net, alice, topic, after1, b, before + e);
  }

  lemma FirstOfThree(
      net: Network, alice: AccountId, topic: seq<byte>, before: seq<Event>, b: Storage, longer: seq<Event>)
    requires Reaches(net, before, System(GENESIS, [], b, [])) && longer == before + [JourneyEvents(alice, topic)[0]]
    ensures Reaches(net, longer, Waiting(alice, b))
  {
    Creation(net, alice, topic, b);
    OneMore(net, before, System(GENESIS, [], b, []), JourneyEvents(alice, topic)[0], Waiting(alice, b), longer);
  }

  lemma SecondOfThree(
      net: Network, alice: AccountId, topic: seq<byte>, before: seq<Event>, b: Storage, longer: seq<Event>)
    requires Reaches(net, before, Waiting(alice, b)) && longer == before + [JourneyEvents(alice, topic)[1]]
    ensures Reaches(net, longer, OnTheWay(net, alice, topic, b))
  {
    Graduation(net, alice, topic, b);
    OneMore(net, before, Waiting(alice, b), JourneyEvents(alice, topic)[1], OnTheWay(net, alice, topic, b), longer);
  }

  lemma ThirdOfThree(
      net: Network, alice: AccountId, topic: seq<byte>, before: seq<Event>, b: Storage, longer: seq<Event>)
    requires Reaches(net, before, OnTheWay(net, alice, topic, b)) && b.count < U32_MAX
    requires longer == before + [JourneyEvents(alice, topic)[2]]
    ensures Reaches(net, longer, Through(net, alice, topic, b))
  {
    Arrival(net, alice, topic, b);
    OneMore(net, before, OnTheWay(net, alice, topic, b), JourneyEvents(alice, topic)[2],
            Through(net, alice, topic, b), longer);
  }

  /** A legal run takes the student from the university chain over the channel to the company chain. */
  lemma JourneyExample(net: Network, alice: AccountId, topic: seq<byte>)
    ensures var e := JourneyEvents(alice, topic);
            && Reaches(net, e[..1], Waiting(alice, GENESIS))
            && Reaches(net, e[..2], OnTheWay(net, alice, topic, GENESIS))
            && Reaches(net, e, System(Gone(alice), [], Storage(1, map[0 := Newcomer(true)], map[alice := [0]]), []))
  {
    JourneyBegins(net, alice, topic);
    JourneyFrom(net, alice, topic, [], GENESIS);
    assert [] + JourneyEvents(alice, topic) == JourneyEvents(alice, topic);
    FirstAdmission(alice, true);
  }

  lemma JourneyBegins(net: Network, alice: AccountId, topic: seq<byte>)
    ensures Reaches(net, JourneyEvents(alice, topic)[..1], Waiting(alice, GENESIS))
    ensures Reaches(net, JourneyEvents(alice, topic)[..2], OnTheWay(net, alice, topic, GENESIS))
  {
    var e := JourneyEvents(alice, topic);
    FirstOfThree(net, alice, topic, [], GENESIS, e[..1]);
    SecondOfThree(net, alice, topic, e[..1], GENESIS, e[..2]);
  }

  lemma HouseNext(net: Network, owner: AccountId, n: nat, t: nat)
    requires 0 < t <= n <= MAX_OWNED && At(net, HouseEvents(owner, n), t - 1).sys == HouseSystem(owner, t - 1)
    ensures At(net, HouseEvents(owner, n), t).sys == HouseSystem(owner, t)
  {
    AtLast(net, HouseEvents(owner, n), t);
    HouseGrows(net, owner, t);
  }

  lemma {:induction false} HouseAt(net: Network, owner: AccountId, n: nat, t: nat)
    requires t <= n <= MAX_OWNED
    ensures At(net, HouseEvents(owner, n), t).sys == HouseSystem(owner, t)
  {
    if t == 0 {
      AtStart(net, HouseEvents(owner, n));
      assert House(owner, 0).students == map[];
    } else {
      HouseAt(net, owner, n, t - 1);
      HouseNext(net, owner, n, t);
    }
  }

  lemma HouseFills(net: Network, owner: AccountId, n: nat)
    requires n <= MAX_OWNED
    ensures Reaches(net, HouseEvents(owner, n), HouseSystem(owner, n))
  {
    var events := HouseEvents(owner, n);
    HouseAt(net, owner, n, n);
    forall t | 0 <= t < n ensures LegalEvent(net, At(net, events, t).sys, events[t]) {
      HouseAt(net, owner, n, t);
      HouseGrows(net, owner, t + 1);
    }
  }

  /**
   * Not every graduate arrives. In this legal run Alice first fills her list on the company
   * chain; her graduate then is on neither chain nor on its way, and its message is lost.
   */
  lemma GraduateLost(net: Network, alice: AccountId, topic: seq<byte>)
    ensures var events := HouseEvents(alice, 100) + JourneyEvents(alice, topic);
            Reaches(net, events, System(Gone(alice), [], House(alice, 100), [Message(net, alice, topic)]))
  {
    HouseFills(net, alice, 100);
    JourneyFrom(net, alice, topic, HouseEvents(alice, 100), House(alice, 100));
    assert |House(alice, 100).OwnedBy(alice)| == 100;
  }
}
