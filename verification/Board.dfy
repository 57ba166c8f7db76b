/**
 * The web page's lists of students, rebuilt by asking for the counter and then for every
 * id below it, while the chain goes on. Each answer comes from the chain's state at some
 * moment; a rejected query ends the load.
 */
module Board {
  import opened Types
  import opened PalletSpec
  import opened Consistency
  import Chain

  datatype Row = Row(id: u32, student: Student)

  /**
   * The states a chain goes through, and for each query in turn the moment whose state
   * answers it, or `None` if the query is rejected. Query 0 asks for the counter, query `i + 1` for id `i`.
   */
  datatype Feed = Feed(history: seq<Storage>, replies: seq<Option<nat>>) {
    function Answer(query: nat): Option<Storage> {
      if query < |replies| && replies[query].Some? && replies[query].value < |history| then
        Some(history[replies[query].value])
      else None
    }

    /** The moment that answers a query. */
    function Moment(query: nat): nat
      requires Answer(query).Some?
    {
      replies[query].value
    }

    /** The state in which id `id` is looked up. */
    function Reading(id: u32): Option<Storage> {
      Answer(id + 1)
    }

    predicate SeenLive(id: u32) {
      Reading(id).Some? && id in Reading(id).value.students
    }
  }

  /** The rows for the ids below `n`, if all their queries are answered. */
  function Rows(f: Feed, n: nat): Option<seq<Row>>
    requires n <= U32_MAX
  {
    if n == 0 then Some([])
    else
      var rows, state := Rows(f, n - 1), f.Answer(n);
      if rows.None? || state.None? then None
      else if n - 1 in state.value.students then Some(rows.value + [Row(n - 1, state.value.students[n - 1])])
      else rows
  }

  function Scan(f: Feed): Option<seq<Row>> {
    var state := f.Answer(0);
    if state.None? then None else Rows(f, state.value.count)
  }

  lemma {:induction false} RejectionEndsScan(f: Feed, m: nat, n: nat)
    requires m <= n <= U32_MAX && Rows(f, m).None?
    ensures Rows(f, n).None?
  {
    if m < n {
      RejectionEndsScan(f, m, n - 1);
    }
  }

  // What a scan lists

  ghost predicate Shows(rows: seq<Row>, id: u32) {
    exists k :: 0 <= k < |rows| && rows[k].id == id
  }

  ghost predicate Increasing(rows: seq<Row>) {
    forall j, k :: 0 <= j < k < |rows| ==> rows[j].id < rows[k].id
  }

  /** The row shows its student as it was read. */
  ghost predicate Faithful(f: Feed, row: Row) {
    f.SeenLive(row.id) && row.student == f.Reading(row.id).value.students[row.id]
  }

  /** The scan lists, in increasing order, the ids below the counter that were live when they were read. */
  lemma {:induction false} RowsAreTheLive(f: Feed, n: nat)
    requires n <= U32_MAX && Rows(f, n).Some?
    ensures var rows := Rows(f, n).value;
            && Increasing(rows)
            && (forall k :: 0 <= k < |rows| ==> rows[k].id < n && Faithful(f, rows[k]))
    ensures forall id: u32 :: id < n ==> f.Reading(id).Some?
    ensures forall id: u32 :: id < n && f.SeenLive(id) ==> Shows(Rows(f, n).value, id)
  {
    if n > 0 {
      RowsAreTheLive(f, n - 1);
      assert f.Reading(n - 1) == f.Answer(n);
      var before, rows := Rows(f, n - 1).value, Rows(f, n).value;
      forall id: u32 | id < n && f.SeenLive(id) ensures Shows(rows, id) {
        if id < n - 1 {
          StillShown(before, rows, id);
        } else {
          assert rows[|rows| - 1].id == id;
        }
      }
    }
  }

  lemma StillShown(before: seq<Row>, rows: seq<Row>, id: u32)
    requires before <= rows && Shows(before, id)
    ensures Shows(rows, id)
  {
    var k :| 0 <= k < |before| && before[k].id == id;
    assert rows[k].id == id;
  }

  /** Every id below the counter has been answered for, whether it is live or not. */
  ghost predicate AllAnswered(f: Feed) {
    f.Answer(0).Some? && forall q: nat :: 1 <= q <= f.Answer(0).value.count ==> f.Answer(q).Some?
  }

  lemma {:induction false} RowsSucceed(f: Feed, n: nat)
    requires n <= U32_MAX
    ensures Rows(f, n).Some? <==> forall q: nat :: 1 <= q <= n ==> f.Answer(q).Some?
  {
    if n > 0 {
      RowsSucceed(f, n - 1);
    }
  }

  /** A load fails exactly when a query is rejected; an id without a student is passed over. */
  lemma ScanSucceeds(f: Feed)
    ensures Scan(f).Some? <==> AllAnswered(f)
  {
    if f.Answer(0).Some? {
      RowsSucceed(f, f.Answer(0).value.count);
    }
  }

  /** The rows are, by increasing id, the students below the counter that were live when read, as read. */
  ghost predicate IsListOf(f: Feed, rows: seq<Row>)
    requires AllAnswered(f)
  {
    && Increasing(rows)
    && (forall k :: 0 <= k < |rows| ==> rows[k].id < f.Answer(0).value.count && Faithful(f, rows[k]))
    && (forall id: u32 :: id < f.Answer(0).value.count && f.SeenLive(id) ==> Shows(rows, id))
  }

  lemma ScanIsList(f: Feed)
    requires AllAnswered(f)
    ensures Scan(f).Some? && IsListOf(f, Scan(f).value)
  {
    ScanSucceeds(f);
    RowsAreTheLive(f, f.Answer(0).value.count);
  }

  class StudentBoard {
    var universityStudents: seq<Row>
    var companyStudents: seq<Row>

    constructor ()
      ensures universityStudents == [] && companyStudents == []
    {
      universityStudents, companyStudents := [], [];
    }

    /** One of the two counted loops. */
    method ScanChain(f: Feed) returns (r: Option<seq<Row>>)
      ensures r == Scan(f)
      ensures r.Some? <==> AllAnswered(f)
      ensures r.Some? ==> IsListOf(f, r.value)
    {
      ScanSucceeds(f);
      if AllAnswered(f) {
        ScanIsList(f);
      }
      var state := f.Answer(0);
      if state.None? {
        return None;
      }
      var list := [];
      for i := 0 to state.value.count
        invariant Rows(f, i) == Some(list)
      {
        var answer := f.Answer(i + 1);
        if answer.None? {
          RejectionEndsScan(f, i + 1, state.value.count);
          return None;
        }
        if i in answer.value.students {
          list := list + [Row(i, answer.value.students[i])];
        }
      }
      r := Some(list);
    }

    /** A rejection leaves the lists that are not loaded yet as they were. */
    method LoadStudentsFromChains(university: Feed, company: Feed)
      modifies this
      ensures universityStudents == if Scan(university).Some? then Scan(university).value else old(universityStudents)
      ensures companyStudents ==
        if Scan(university).Some? && Scan(company).Some? then Scan(company).value else old(companyStudents)
      ensures AllAnswered(university) ==> IsListOf(university, universityStudents)
      ensures AllAnswered(university) && AllAnswered(company) ==> IsListOf(company, companyStudents)
      ensures !AllAnswered(university) ==> universityStudents == old(universityStudents)
      ensures !(AllAnswered(university) && AllAnswered(company)) ==> companyStudents == old(companyStudents)
    {
      var list := ScanChain(university);
      if list.None? {
        return;
      }
      universityStudents := list.value;
      list := ScanChain(company);
      if list.None? {
        return;
      }
      companyStudents := list.value;
    }
  }

  // What a scan of a moving chain shows

  /** No id is read before the counter. */
  ghost predicate CounterFirst(f: Feed) {
    forall q :: 0 < q && f.Answer(0).Some? && f.Answer(q).Some? ==> f.Moment(0) <= f.Moment(q)
  }

  /** The feed shows a legal run of a chain. */
  ghost predicate Watches(f: Feed, cfg: Config, s: Storage, steps: seq<Chain.Step>) {
    && Invariant(cfg, s) && Chain.LegalRun(cfg, s, steps)
    && |f.history| == |steps| + 1
    && (forall t :: 0 <= t <= |steps| ==> f.history[t] == Chain.At(cfg, s, steps, t))
    && CounterFirst(f)
  }

  ghost predicate LiveThroughout(f: Feed, id: u32, from: nat, to: nat) {
    forall t :: from <= t <= to && t < |f.history| ==> id in f.history[t].students
  }

  /** Live from the moment the counter was read up to the moment the id itself was read. */
  ghost predicate Steady(f: Feed, id: u32) {
    f.Answer(0).Some? && f.Reading(id).Some? && LiveThroughout(f, id, f.Moment(0), f.Moment(id + 1))
  }

  /** The rows are exactly the steady students, in increasing order, each as it was at its own reading. */
  ghost predicate ShowsTheSteady(f: Feed)
    requires Scan(f).Some?
  {
    var rows := Scan(f).value;
    && Increasing(rows)
    && (forall k :: 0 <= k < |rows| ==> Faithful(f, rows[k]))
    && (forall id: u32 :: Shows(rows, id) <==> Steady(f, id))
  }

  /**
   * On a chain that keeps changing, a scan shows exactly the students that were live from
   * the reading of the counter to their own reading, each as it was at its own reading.
   */
  lemma ScanShowsExactlyTheSteady(f: Feed, cfg: Config, s: Storage, steps: seq<Chain.Step>)
    requires Watches(f, cfg, s, steps) && Scan(f).Some?
    ensures ShowsTheSteady(f)
  {
    var rows, n := Scan(f).value, f.Answer(0).value.count;
    RowsAreTheLive(f, n);
    forall id: u32 ensures Shows(rows, id) <==> Steady(f, id) {
      if Shows(rows, id) {
        assert id < n && f.SeenLive(id);
        SeenLiveIsSteady(f, cfg, s, steps, id);
      } else if Steady(f, id) {
        SteadyIsBelowCount(f, cfg, s, steps, id);
        SeenLiveIsSteady(f, cfg, s, steps, id);
      }
    }
  }

  lemma SeenLiveIsSteady(f: Feed, cfg: Config, s: Storage, steps: seq<Chain.Step>, id: u32)
    requires Watches(f, cfg, s, steps) && f.Answer(0).Some? && f.Reading(id).Some?
    requires id < f.Answer(0).value.count
    ensures f.SeenLive(id) <==> Steady(f, id)
  {
    var t0, t1 := f.Moment(0), f.Moment(id + 1);
    assert t0 <= t1 <= |steps| && f.Reading(id).value == f.history[t1];
    if f.SeenLive(id) {
      forall t | t0 <= t <= t1 ensures id in f.history[t].students {
        Chain.NoReuse(cfg, s, steps, t0, t, id);
        Chain.NoReuse(cfg, s, steps, t, t1, id);
      }
    }
  }

  /** A student that is live when the counter is read has an id below it, so the scan asks for it. */
  lemma SteadyIsBelowCount(f: Feed, cfg: Config, s: Storage, steps: seq<Chain.Step>, id: u32)
    requires Watches(f, cfg, s, steps) && Steady(f, id)
    ensures id < f.Answer(0).value.count
  {
    Chain.InvariantThroughout(cfg, s, steps, f.Moment(0));
    assert f.Moment(0) <= f.Moment(id + 1);
    assert id in f.history[f.Moment(0)].students;
  }
}
