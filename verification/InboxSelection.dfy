/** The capped search, and which of the listed runs one drain examines. */
module InboxSelection {
  import opened Common
  import opened Sorting
  import opened Inbox
  import opened InboxSweeps

  // ----- the filtered search

  /** The search shows at most the first thousand of the matching runs; the count it reports may be anything. */
  ghost predicate Shows(matching: seq<Row>, service: Service) {
    forall page: nat | page >= 1 :: service(page).Refused? || service(page).rows == PageOf(Visible(matching), page)
  }

  function Visible(matching: seq<Row>): seq<Row> { matching[..Min(FILTERED_RUN_LIMIT, |matching|)] }

  lemma PrefixAndPage(rows: seq<Row>, page: nat)
    requires page >= 1 && (page - 1) * PER_PAGE <= |rows|
    ensures Ids(rows[..(page - 1) * PER_PAGE]) + Ids(PageOf(rows, page)) == Ids(rows[..Min(page * PER_PAGE, |rows|)])
  {
    var a, b := (page - 1) * PER_PAGE, Min(page * PER_PAGE, |rows|);
    assert rows[..b] == rows[..a] + PageOf(rows, page);
    IdsOfSum(rows[..a], PageOf(rows, page));
  }

  lemma IdsOfSum(x: seq<Row>, y: seq<Row>)
    ensures Ids(x + y) == Ids(x) + Ids(y)
  {
    forall k | k in Ids(y) ensures k in Ids(x + y) {
      var i :| 0 <= i < |y| && y[i].Run? && y[i].id == k;
      assert (x + y)[|x| + i] == y[i];
    }
    forall k | k in Ids(x) ensures k in Ids(x + y) {
      var i :| 0 <= i < |x| && x[i].Run? && x[i].id == k;
      assert (x + y)[i] == x[i];
    }
  }

  lemma {:induction false} FilteredReads(rows: seq<Row>, service: Service, page: nat, runs: Runs, totals: set<Option<nat>>, capped: bool)
    requires 1 <= page <= FILTERED_RUN_LIMIT / PER_PAGE && (page - 1) * PER_PAGE <= |rows|
    requires forall p: nat | p >= 1 :: service(p).Refused? || service(p).rows == PageOf(rows, p)
    requires runs.Keys == Ids(rows[..(page - 1) * PER_PAGE])
    ensures var r := Filtered(service, page, runs, totals, capped);
            r.Ok? ==>
              if r.value.cursor.None? then |rows| < FILTERED_RUN_LIMIT && r.value.runs.Keys == Ids(rows)
              else r.value.cursor == Some(1) && r.value.code == Some(SearchCapped) && !r.value.complete
    decreases FILTERED_RUN_LIMIT / PER_PAGE - page
  {
    var a := RunPage(service, page);
    if a.Batch? {
      assert a.rows == PageOf(rows, page);
      RememberIds(runs, a.rows);
      PrefixAndPage(rows, page);
      if |a.rows| == PER_PAGE {
        assert page * PER_PAGE <= |rows|;
        if page < FILTERED_RUN_LIMIT / PER_PAGE {
          FilteredReads(rows, service, page + 1, Remember(runs, a.rows), totals + {a.total},
                        capped || (a.total.Some? && a.total.value >= FILTERED_RUN_LIMIT));
        }
      } else {
        assert rows[..|rows|] == rows;
      }
      hide Ids, PageOf, Remember;
    }
  }

  /** MAIN RESULT. A filtered search that starts no unfiltered scan was not capped and found every matching run; one
      that may have been capped is never complete and starts a scan at the first page. */
  lemma SearchNeverHidesTheCap(matching: seq<Row>, service: Service)
    requires Shows(matching, service)
    ensures var r := Filtered(service, 1, map[], {}, false);
            r.Ok? ==>
              if r.value.cursor.None? then |matching| < FILTERED_RUN_LIMIT && r.value.runs.Keys == Ids(matching)
              else r.value.cursor == Some(1) && r.value.code == Some(SearchCapped) && !r.value.complete
  {
    var rows := Visible(matching);
    assert rows[..0] == [];
    assert Ids(rows[..0]) == {};
    var none: Runs := map[];
    assert none.Keys == {};
    assert forall p: nat | p >= 1 :: service(p).Refused? || service(p).rows == PageOf(rows, p);
    FilteredReads(rows, service, 1, map[], {}, false);
    assert |rows| < FILTERED_RUN_LIMIT ==> rows == matching;
    hide Filtered, Ids, PageOf, Visible;
  }

  // ----- candidate selection

  datatype Kind = Invalid | Old | RefusedAs(code: string) | Settled | Candidate

  /** What becomes of one listed run. */
  function KindOf(row: Row, cutoff: int, settled: Option<set<int>>): Kind
    requires row.Run?
  {
    if row.created.None? then Invalid
    else if row.created.value < cutoff then Old
    else if row.refusal.Some? then RefusedAs(row.refusal.value)
    else if settled.Some? && row.id in settled.value then Settled
    else Candidate
  }

  function Of(rows: seq<Row>, cutoff: int, settled: Option<set<int>>, kind: Kind): (s: seq<Row>)
    requires forall r | r in rows :: r.Run?
    ensures forall r :: r in s <==> r in rows && KindOf(r, cutoff, settled) == kind
  {
    if rows == [] then []
    else
      var n := |rows| - 1;
      Of(rows[..n], cutoff, settled, kind) + if KindOf(rows[n], cutoff, settled) == kind then [rows[n]] else []
  }

  lemma OneMoreRow(rows: seq<Row>, i: nat, cutoff: int, settled: Option<set<int>>, kind: Kind)
    requires i < |rows| && forall r | r in rows :: r.Run?
    ensures Of(rows[..i + 1], cutoff, settled, kind)
            == Of(rows[..i], cutoff, settled, kind) + if KindOf(rows[i], cutoff, settled) == kind then [rows[i]] else []
  {
    assert rows[..i + 1][..i] == rows[..i] && rows[..i + 1][i] == rows[i];
  }

  /** The loop of `fetch` that picks the candidates; `invalid` counts the rows whose time cannot be read. */
  method Select(rows: seq<Row>, cutoff: int, settled: Option<set<int>>) returns (invalid: nat, candidates: seq<Row>)
    requires forall r | r in rows :: r.Run?
    ensures invalid == |Of(rows, cutoff, settled, Invalid)|
    ensures candidates == Of(rows, cutoff, settled, Candidate)
  {
    invalid, candidates := 0, [];
    for i := 0 to |rows|
      invariant invalid == |Of(rows[..i], cutoff, settled, Invalid)|
      invariant candidates == Of(rows[..i], cutoff, settled, Candidate)
    {
      var row := rows[i];
      assert row in rows;
      OneMoreRow(rows, i, cutoff, settled, Invalid);
      OneMoreRow(rows, i, cutoff, settled, Candidate);
      if row.created.None? {
        invalid := invalid + 1;
        continue;
      }
      if row.created.value < cutoff {
        continue;
      }
      if row.refusal.None? && !(settled.Some? && row.id in settled.value) {
        candidates := candidates + [row];
      }
    }
    assert rows[..|rows|] == rows;
  }

  /** One more listed run. It is a candidate exactly when it was created no earlier than the cutoff, when no check
      of its provenance refused it, and when it is not settled. */
  lemma CandidatesExactly(rows: seq<Row>, cutoff: int, settled: Option<set<int>>, i: nat)
    requires i < |rows| && forall r | r in rows :: r.Run?
    ensures var chosen := Of(rows[..i + 1], cutoff, settled, Candidate);
            var r := rows[i];
            chosen == Of(rows[..i], cutoff, settled, Candidate)
              + if r.created.Some? && r.created.value >= cutoff && r.refusal.None? && (settled.Some? ==> r.id !in settled.value)
                then [r] else []
    ensures var invalid := Of(rows[..i + 1], cutoff, settled, Invalid);
            invalid == Of(rows[..i], cutoff, settled, Invalid) + if rows[i].created.None? then [rows[i]] else []
    ensures Of([], cutoff, settled, Candidate) == [] && Of([], cutoff, settled, Invalid) == []
  {
    assert rows[i] in rows;
    OneMoreRow(rows, i, cutoff, settled, Candidate);
    OneMoreRow(rows, i, cutoff, settled, Invalid);
    hide Of;
  }

  const MAX_RUNS_EXAMINED: nat := 150

  /** `(created_at, id)`, in string order. */
  predicate OlderFirst(x: Row, y: Row) { if x.Run? && y.Run? then Before(x, y) else x.Junk? }

  predicate Before(x: Row, y: Row)
    requires x.Run? && y.Run?
  {
    x.stamp < y.stamp || (x.stamp == y.stamp && x.id <= y.id)
  }

  /** The runs that one drain examines, oldest first, and those it leaves for a later one. */
  function Examined(candidates: seq<Row>): (seq<Row>, seq<Row>) {
    var order := Sort(candidates, OlderFirst);
    var n := Min(MAX_RUNS_EXAMINED, |order|);
    (order[..n], order[n..])
  }

  /** Nothing is lost between the two, no deferred run is older than an examined one, and something is deferred
      only when the budget of examined runs is used up. */
  lemma OldestExamined(candidates: seq<Row>)
    requires forall r | r in candidates :: r.Run?
    ensures var (examined, deferred) := Examined(candidates);
            && multiset(examined) + multiset(deferred) == multiset(candidates)
            && (forall x, y | x in examined && y in deferred ::
                  x.Run? && y.Run? && (x.stamp < y.stamp || (x.stamp == y.stamp && x.id <= y.id)))
            && (deferred != [] ==> |examined| == MAX_RUNS_EXAMINED)
  {
    var order := Sort(candidates, OlderFirst);
    var n := Min(MAX_RUNS_EXAMINED, |order|);
    SortKeeps(candidates, OlderFirst);
    SortSorts(candidates, OlderFirst);
    assert order == order[..n] + order[n..];
    forall x | x in order ensures x.Run? {
      SortMembers(candidates, OlderFirst, x);
    }
    hide Sort;
    SplitOrdered(order, n);
  }

  lemma SplitOrdered(order: seq<Row>, n: nat)
    requires Sorted(order, OlderFirst) && n <= |order| && forall r | r in order :: r.Run?
    ensures forall x, y | x in order[..n] && y in order[n..] :: x.Run? && y.Run? && Before(x, y)
  {
    forall x, y | x in order[..n] && y in order[n..] ensures x.Run? && y.Run? && Before(x, y) {
      var i :| 0 <= i < n && order[i] == x;
      var j :| 0 <= j < |order[n..]| && order[n..][j] == y;
      assert order[n + j] == y && OlderFirst(order[i], order[n + j]);
    }
  }
}
