/**
 * The web page's two lists side by side, student by student. The page reads the university
 * chain first and the company chain afterwards, while students move from one to the other.
 */
module BothLists {
  import opened Types
  import opened TwoChains
  import opened Journeys
  import opened Board
  import opened Views

  /** The place of the student created as number `i`. */
  ghost function PlaceAt(net: Network, events: seq<Event>, t: nat, i: nat): Place
    requires t <= |events| && i < |At(net, events, t).ledger.places|
  {
    At(net, events, t).ledger.places[i]
  }

  ghost predicate Exists(net: Network, events: seq<Event>, t: nat, i: nat) {
    t <= |events| && i < |At(net, events, t).ledger.places|
  }

  /** Student `i` is at `p` at time `t`. */
  ghost predicate IsAt(net: Network, events: seq<Event>, t: nat, i: nat, p: Place) {
    Exists(net, events, t, i) && PlaceAt(net, events, t, i) == p
  }

  function Home(side: Side, id: u32): Place {
    match side
    case University => LiveOnA(id)
    case Company => LiveOnB(id)
  }

  /** The list made from `f` has a row that, when it was read, was student `i`. */
  ghost predicate OnList(f: Feed, side: Side, net: Network, events: seq<Event>, i: nat)
    requires Scan(f).Some?
  {
    exists id: u32 ::
      && Shows(Scan(f).value, id) && f.Reading(id).Some?
      && IsAt(net, events, f.Moment(id + 1), i, Home(side, id))
  }

  /** Student `i` was on the chain when the counter was read and still there when its own id was read. */
  ghost predicate Stayed(f: Feed, side: Side, net: Network, events: seq<Event>, i: nat)
    requires Scan(f).Some?
  {
    exists id: u32 :: StayedAs(f, side, net, events, i, id)
  }

  ghost predicate StayedAs(f: Feed, side: Side, net: Network, events: seq<Event>, i: nat, id: u32)
    requires Scan(f).Some?
  {
    && f.Reading(id).Some?
    && IsAt(net, events, f.Moment(0), i, Home(side, id)) && IsAt(net, events, f.Moment(id + 1), i, Home(side, id))
  }

  // Places and records

  lemma HomeIsRecord(side: Side, net: Network, events: seq<Event>, t: nat, id: u32)
    requires LegalPlay(net, events) && t <= |events|
    ensures id in States(side, net, events)[t].students <==> exists i :: IsAt(net, events, t, i, Home(side, id))
  {
    CoherentThroughout(net, events, t);
    var places := At(net, events, t).ledger.places;
    if id in States(side, net, events)[t].students {
      var i :| 0 <= i < |places| && places[i] == Home(side, id);
      assert IsAt(net, events, t, i, Home(side, id));
    }
  }

  lemma OneStudentAtHome(side: Side, net: Network, events: seq<Event>, t: nat, i: nat, j: nat, id: u32)
    requires LegalPlay(net, events)
    requires IsAt(net, events, t, i, Home(side, id)) && IsAt(net, events, t, j, Home(side, id))
    ensures i == j
  {
    CoherentThroughout(net, events, t);
  }

  lemma WhereItWent(net: Network, events: seq<Event>, t1: nat, t2: nat, i: nat)
    requires LegalPlay(net, events) && t1 <= t2 <= |events| && Exists(net, events, t1, i)
    ensures Exists(net, events, t2, i) && Leads(PlaceAt(net, events, t1, i), PlaceAt(net, events, t2, i))
  {
    StudentsNeverReturn(net, events, t1, t2);
    assert Onward(At(net, events, t1), At(net, events, t2), PlaceAt(net, events, t1, i), PlaceAt(net, events, t2, i));
  }

  /** A student found at home twice was there all the time. */
  lemma AtHomeBetween(side: Side, net: Network, events: seq<Event>, t1: nat, t: nat, t2: nat, i: nat, id: u32)
    requires LegalPlay(net, events) && t1 <= t <= t2 <= |events|
    requires IsAt(net, events, t1, i, Home(side, id)) && IsAt(net, events, t2, i, Home(side, id))
    ensures IsAt(net, events, t, i, Home(side, id))
  {
    WhereItWent(net, events, t1, t, i);
    WhereItWent(net, events, t, t2, i);
  }

  // One list

  lemma StayedIsSteady(f: Feed, side: Side, net: Network, events: seq<Event>, i: nat, id: u32)
    requires LegalPlay(net, events) && Follows(f, side, net, events) && Scan(f).Some?
    requires StayedAs(f, side, net, events, i, id)
    ensures Steady(f, id)
  {
    var t1, t2 := f.Moment(0), f.Moment(id + 1);
    forall t | t1 <= t <= t2 ensures id in f.history[t].students {
      AtHomeBetween(side, net, events, t1, t, t2, i, id);
      HomeIsRecord(side, net, events, t, id);
    }
  }

  lemma SteadyHasStayed(f: Feed, side: Side, net: Network, events: seq<Event>, id: u32) returns (i: nat)
    requires LegalPlay(net, events) && Follows(f, side, net, events) && Scan(f).Some? && Steady(f, id)
    ensures StayedAs(f, side, net, events, i, id)
  {
    var t1, t2 := f.Moment(0), f.Moment(id + 1);
    assert t1 <= t2;
    HomeIsRecord(side, net, events, t1, id);
    i :| IsAt(net, events, t1, i, Home(side, id));
    HomeIsRecord(side, net, events, t2, id);
    var j :| IsAt(net, events, t2, j, Home(side, id));
    StudentsNeverReturn(net, events, t1, t2);
    assert Onward(At(net, events, t1), At(net, events, t2), PlaceAt(net, events, t1, i), PlaceAt(net, events, t2, i));
  }

  /** Every row is one student: one that stayed from the reading of the counter to the reading of the row. */
  lemma RowIsOneStudent(f: Feed, side: Side, net: Network, events: seq<Event>, id: u32)
    requires LegalPlay(net, events) && Follows(f, side, net, events) && Scan(f).Some? && Shows(Scan(f).value, id)
    ensures exists i: nat :: StayedAs(f, side, net, events, i, id)
    ensures forall i: nat, j: nat ::
              StayedAs(f, side, net, events, i, id) && StayedAs(f, side, net, events, j, id) ==> i == j
  {
    BoardShowsEitherChain(side, net, events, f);
    assert Steady(f, id);
    var i0 := SteadyHasStayed(f, side, net, events, id);
    forall i: nat, j: nat | StayedAs(f, side, net, events, i, id) && StayedAs(f, side, net, events, j, id)
      ensures i == j
    {
      OneStudentAtHome(side, net, events, f.Moment(0), i, j, id);
    }
  }

  /** A list shows exactly the students that stayed, each under the id it had. */
  lemma ListedIsStayed(f: Feed, side: Side, net: Network, events: seq<Event>, i: nat)
    requires LegalPlay(net, events) && Follows(f, side, net, events) && Scan(f).Some?
    ensures OnList(f, side, net, events, i) <==> Stayed(f, side, net, events, i)
  {
    BoardShowsEitherChain(side, net, events, f);
    if OnList(f, side, net, events, i) {
      var id: u32 :| && Shows(Scan(f).value, id) && f.Reading(id).Some?
                     && IsAt(net, events, f.Moment(id + 1), i, Home(side, id));
      assert Steady(f, id);
      var j := SteadyHasStayed(f, side, net, events, id);
      OneStudentAtHome(side, net, events, f.Moment(id + 1), i, j, id);
    }
    if Stayed(f, side, net, events, i) {
      var id: u32 :| StayedAs(f, side, net, events, i, id);
      StayedIsSteady(f, side, net, events, i, id);
      assert Steady(f, id);
    }
  }

  lemma RowOf(f: Feed, side: Side, net: Network, events: seq<Event>, i: nat) returns (id: u32)
    requires LegalPlay(net, events) && Follows(f, side, net, events) && Scan(f).Some? && OnList(f, side, net, events, i)
    ensures StayedAs(f, side, net, events, i, id)
  {
    ListedIsStayed(f, side, net, events, i);
    id :| StayedAs(f, side, net, events, i, id);
  }

  // Both lists

  /** No company query is answered from an earlier moment than a university query. */
  ghost predicate UniversityFirst(university: Feed, company: Feed) {
    forall q, q' :: university.Answer(q).Some? && company.Answer(q').Some? ==>
      university.Moment(q) <= company.Moment(q')
  }

  /** A load that reads both chains of the running system, the university first, with every query answered. */
  ghost predicate Load(university: Feed, company: Feed, net: Network, events: seq<Event>) {
    && LegalPlay(net, events)
    && Follows(university, University, net, events) && Follows(company, Company, net, events)
    && UniversityFirst(university, company) && Scan(university).Some? && Scan(company).Some?
  }

  predicate OnItsWay(p: Place) {
    p.LiveOnA? || p.InFlight? || p.LiveOnB?
  }

  /** A student that was on the chain when the counter was read is asked for. */
  lemma IsAskedFor(f: Feed, side: Side, net: Network, events: seq<Event>, i: nat, id: u32)
    requires LegalPlay(net, events) && Follows(f, side, net, events) && Scan(f).Some?
    requires IsAt(net, events, f.Moment(0), i, Home(side, id))
    ensures f.Reading(id).Some?
  {
    CoherentThroughout(net, events, f.Moment(0));
    HomeIsRecord(side, net, events, f.Moment(0), id);
    RowsAreTheLive(f, f.Answer(0).value.count);
  }

  lemma StillAtUniversity(university: Feed, company: Feed, net: Network, events: seq<Event>, i: nat, id: u32)
    requires Load(university, company, net, events) && Exists(net, events, university.Moment(0), i)
    requires IsAt(net, events, company.Moment(0), i, LiveOnA(id))
    ensures StayedAs(university, University, net, events, i, id)
  {
    var t0, t1 := university.Moment(0), company.Moment(0);
    WhereItWent(net, events, t0, t1, i);
    IsAskedFor(university, University, net, events, i, id);
    AtHomeBetween(University, net, events, t0, university.Moment(id + 1), t1, i, id);
  }

  lemma StillAtCompany(f: Feed, net: Network, events: seq<Event>, i: nat, id: u32)
    requires LegalPlay(net, events) && Follows(f, Company, net, events) && Scan(f).Some?
    requires IsAt(net, events, f.Moment(0), i, LiveOnB(id))
    requires Exists(net, events, |events|, i) && OnItsWay(PlaceAt(net, events, |events|, i))
    ensures StayedAs(f, Company, net, events, i, id)
  {
    IsAskedFor(f, Company, net, events, i, id);
    WhereItWent(net, events, f.Moment(0), |events|, i);
    AtHomeBetween(Company, net, events, f.Moment(0), f.Moment(id + 1), |events|, i, id);
  }

  /**
   * A student that exists when the load begins and is neither deleted nor lost is on the
   * company list exactly if it had arrived when the company's counter was read. If it was
   * still on the university chain then, it is on the university list. So it is missing from
   * both lists exactly if it was in flight then and had left before its university reading.
   */
  lemma ListsByPlace(university: Feed, company: Feed, net: Network, events: seq<Event>, i: nat)
    requires Load(university, company, net, events) && Exists(net, events, university.Moment(0), i)
    requires Exists(net, events, |events|, i) && OnItsWay(PlaceAt(net, events, |events|, i))
    ensures Exists(net, events, company.Moment(0), i)
    ensures var onA, onB := OnList(university, University, net, events, i), OnList(company, Company, net, events, i);
            var p := PlaceAt(net, events, company.Moment(0), i);
            && (onB <==> p.LiveOnB?) && (p.LiveOnA? ==> onA)
            && (!onA && !onB <==> p.InFlight? && !Stayed(university, University, net, events, i))
  {
    var t0, t1 := university.Moment(0), company.Moment(0);
    WhereItWent(net, events, t0, t1, i);
    WhereItWent(net, events, t1, |events|, i);
    ListedIsStayed(university, University, net, events, i);
    ListedIsStayed(company, Company, net, events, i);
    var p := PlaceAt(net, events, t1, i);
    if p.LiveOnA? {
      StillAtUniversity(university, company, net, events, i, p.id);
    } else if p.LiveOnB? {
      StillAtCompany(company, net, events, i, p.id);
    }
  }

  /** The event at time `t` brings student `i` from the channel onto the company chain. */
  ghost predicate ArrivesAt(net: Network, events: seq<Event>, t: nat, i: nat) {
    && t < |events| && Delivers(At(net, events, t).sys, events[t]) && Exists(net, events, t, i)
    && PlaceAt(net, events, t, i).InFlight?
    && PlaceAt(net, events, t, i).number == At(net, events, t).ledger.Head(At(net, events, t).sys)
    && IsAt(net, events, t + 1, i, LiveOnB(At(net, events, t).sys.b.count))
  }

  ghost predicate IsOver(net: Network, events: seq<Event>, t: nat, i: nat) {
    Exists(net, events, t, i) && PlaceAt(net, events, t, i).LiveOnB?
  }

  lemma OneStepHome(net: Network, events: seq<Event>, t: nat, i: nat)
    requires LegalPlay(net, events) && t < |events| && Exists(net, events, t, i)
    requires !IsOver(net, events, t, i) && IsOver(net, events, t + 1, i)
    ensures ArrivesAt(net, events, t, i)
  {
    CoherentThroughout(net, events, t);
    AtNext(net, events, t);
    var x := At(net, events, t);
    OnlyDeliveriesArrive(net, x.sys, x.ledger, events[t], i);
  }

  lemma OnlyDeliveriesArrive(net: Network, y: System, l: Ledger, event: Event, i: nat)
    requires i < |l.places| && !l.places[i].LiveOnB? && Bookkeep(net, y, l, event).places[i].LiveOnB?
    ensures Delivers(y, event) && l.places[i].InFlight? && l.places[i].number == l.Head(y)
    ensures Bookkeep(net, y, l, event).places[i] == LiveOnB(y.b.count)
  {}

  lemma {:induction false} WhenItCameOver(net: Network, events: seq<Event>, t1: nat, t2: nat, i: nat) returns (t: nat)
    requires t1 <= t2 && !IsOver(net, events, t1, i) && IsOver(net, events, t2, i)
    ensures t1 <= t < t2 && !IsOver(net, events, t, i) && IsOver(net, events, t + 1, i)
    decreases t2
  {
    t := t2 - 1;
    if IsOver(net, events, t2 - 1, i) {
      t := WhenItCameOver(net, events, t1, t2 - 1, i);
    }
  }

  /** A student on the way is brought over by one delivery. */
  lemma WayAcross(net: Network, events: seq<Event>, t1: nat, t2: nat, i: nat) returns (t: nat)
    requires LegalPlay(net, events) && t1 <= t2 <= |events| && Exists(net, events, t1, i)
    requires !IsOver(net, events, t1, i) && IsOver(net, events, t2, i)
    ensures t1 <= t < t2 && ArrivesAt(net, events, t, i)
  {
    t := WhenItCameOver(net, events, t1, t2, i);
    WhereItWent(net, events, t1, t, i);
    OneStepHome(net, events, t, i);
  }

  /**
   * Student `i` has the university row `id` and is delivered at time `t`, after that row was
   * read and before the company's counter was.
   */
  ghost predicate CrossesMeanwhile(
      university: Feed, company: Feed, net: Network, events: seq<Event>, i: nat, id: u32, t: nat)
    requires Load(university, company, net, events)
  {
    && StayedAs(university, University, net, events, i, id)
    && university.Moment(id + 1) <= t < company.Moment(0) && ArrivesAt(net, events, t, i)
  }

  lemma RowsApart(
      university: Feed, company: Feed, net: Network, events: seq<Event>, i: nat, id: u32, id': u32) returns (t: nat)
    requires Load(university, company, net, events)
    requires StayedAs(university, University, net, events, i, id) && StayedAs(company, Company, net, events, i, id')
    ensures CrossesMeanwhile(university, company, net, events, i, id, t)
  {
    t := WayAcross(net, events, university.Moment(id + 1), company.Moment(0), i);
  }

  /** A student on both lists was delivered after its university reading and before the company's counter was read. */
  lemma ListedTwice(university: Feed, company: Feed, net: Network, events: seq<Event>, i: nat)
    requires Load(university, company, net, events)
    requires OnList(university, University, net, events, i) && OnList(company, Company, net, events, i)
    ensures exists id: u32, t: nat :: CrossesMeanwhile(university, company, net, events, i, id, t)
  {
    var id: u32 := RowOf(university, University, net, events, i);
    var id': u32 := RowOf(company, Company, net, events, i);
    var t := RowsApart(university, company, net, events, i, id, id');
  }
}
