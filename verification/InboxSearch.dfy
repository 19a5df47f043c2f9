/** The filtered search of one drain, told from the answers it got: how it ends, and when it is complete. */
module InboxSearch {
  import opened Common
  import opened Inbox
  import opened InboxSweeps
  import opened InboxSelection

  /** These pages were answered with a hundred rows each. */
  ghost predicate Full(service: Service, low: nat, high: nat) {
    forall q: nat | low <= q < high :: RunPage(service, q).Batch? && |RunPage(service, q).rows| == 100
  }

  /** The pages of the search that gave `l`, from `page` on, were answered, all but the last with a hundred rows; and
      they are where its runs and its count come from. */
  ghost predicate Searched(service: Service, page: nat, known: set<int>, l: Listed) {
    && page <= l.pages <= 10 && Full(service, page, l.pages) && RunPage(service, l.pages).Batch?
    && (l.pages == 10 || |RunPage(service, l.pages).rows| < 100)
    && l.total == RunPage(service, l.pages).total
    && forall x :: x in l.runs <==> x in known || exists q: nat | page <= q <= l.pages :: x in AnswerIds(RunPage(service, q))
  }

  /** Some page counted a thousand matches or more. */
  ghost predicate Overflown(service: Service, low: nat, high: nat) {
    exists q: nat | low <= q <= high :: RunPage(service, q).Batch? && RunPage(service, q).total.Some?
                                       && RunPage(service, q).total.value >= 1000
  }

  /** Every page reported this count. */
  ghost predicate Counted(service: Service, low: nat, high: nat, n: nat) {
    forall q: nat | low <= q <= high :: RunPage(service, q).Batch? && RunPage(service, q).total == Some(n)
  }

  ghost predicate Concludes(service: Service, page: nat, l: Listed, totals: set<Option<nat>>, capped: bool)
    requires RunPage(service, l.pages).Batch?
  {
    if capped || Overflown(service, page, l.pages) || |RunPage(service, l.pages).rows| == 100
    then !l.complete && l.code == Some(SearchCapped) && l.cursor == Some(1)
    else
      && l.cursor == None && l.code == (if l.complete then None else Some(ScanPartial))
      && (l.complete <==> totals <= {Some(|l.runs|)} && Counted(service, page, l.pages, |l.runs|))
  }

  lemma OnePage(service: Service, page: nat, n: nat)
    requires RunPage(service, page).Batch?
    ensures var total := RunPage(service, page).total;
      && (Counted(service, page, page, n) <==> total == Some(n))
      && (Overflown(service, page, page) <==> total.Some? && total.value >= 1000)
  {
    hide RunPage;
    if RunPage(service, page).total.Some? && RunPage(service, page).total.value >= 1000 {
      assert page <= page <= page;
    }
  }

  lemma MorePages(service: Service, page: nat, last: nat, n: nat)
    requires page < last && RunPage(service, page).Batch?
    ensures var total := RunPage(service, page).total;
      && (Counted(service, page, last, n) <==> total == Some(n) && Counted(service, page + 1, last, n))
      && (Overflown(service, page, last) <==> (total.Some? && total.value >= 1000) || Overflown(service, page + 1, last))
  {
    hide RunPage;
    if Overflown(service, page + 1, last) {
      var q: nat :| page + 1 <= q <= last && RunPage(service, q).Batch? && RunPage(service, q).total.Some?
        && RunPage(service, q).total.value >= 1000;
      assert page <= q <= last;
    }
    if RunPage(service, page).total.Some? && RunPage(service, page).total.value >= 1000 {
      assert page <= page <= last;
    }
  }

  /** The first page adds its runs to those of the others. */
  lemma MoreRuns(service: Service, page: nat, last: nat, before: set<int>, known: set<int>, x: int)
    requires page < last && RunPage(service, page).Batch? && known == before + AnswerIds(RunPage(service, page))
    ensures (x in known || exists q: nat | page + 1 <= q <= last :: x in AnswerIds(RunPage(service, q)))
       <==> (x in before || exists q: nat | page <= q <= last :: x in AnswerIds(RunPage(service, q)))
  {
    hide RunPage, AnswerIds;
    if q: nat :| page + 1 <= q <= last && x in AnswerIds(RunPage(service, q)) {
      assert page <= q <= last;
    }
    if x in AnswerIds(RunPage(service, page)) {
      assert page <= page <= last;
    }
  }

  lemma SearchStops(service: Service, page: nat, runs: Runs, totals: set<Option<nat>>, capped: bool)
    requires 1 <= page <= 10 && RunPage(service, page).Batch?
    requires !(page < 10 && |RunPage(service, page).rows| == 100)
    ensures var r := Filtered(service, page, runs, totals, capped);
      r.Ok? && r.value.pages == page && Searched(service, page, runs.Keys, r.value)
      && Concludes(service, page, r.value, totals, capped)
  {
    var a := RunPage(service, page);
    var l := Filtered(service, page, runs, totals, capped).value;
    assert l.runs == Remember(runs, a.rows) && l.pages == page && l.total == a.total;
    var n := |l.runs|;
    SeenOnce(totals, a.total, n);
    OnePage(service, page, n);
    OnlyRuns(service, page, runs, l);
    hide Remember, Ids, RunPage, Counted, Overflown, AnswerIds;
    assert Full(service, page, page);
  }

  lemma SeenOnce(totals: set<Option<nat>>, total: Option<nat>, n: nat)
    ensures totals + {total} == {Some(n)} <==> totals <= {Some(n)} && total == Some(n)
  {
  }

  lemma OnlyRuns(service: Service, page: nat, runs: Runs, l: Listed)
    requires RunPage(service, page).Batch? && l.runs == Remember(runs, RunPage(service, page).rows)
    ensures forall x :: x in l.runs <==> x in runs.Keys || exists q: nat | page <= q <= page :: x in AnswerIds(RunPage(service, q))
  {
    RememberIds(runs, RunPage(service, page).rows);
    hide Remember, Ids, RunPage;
    forall x ensures x in l.runs <==> x in runs.Keys || exists q: nat | page <= q <= page :: x in AnswerIds(RunPage(service, q)) {
      assert x in l.runs <==> x in l.runs.Keys;
      if x in AnswerIds(RunPage(service, page)) {
        assert page <= page <= page;
      }
    }
  }

  lemma SearchGoesOn(service: Service, page: nat, runs: Runs, totals: set<Option<nat>>, capped: bool, l: Listed)
    requires 1 <= page < 10 && RunPage(service, page).Batch? && |RunPage(service, page).rows| == 100
    requires var a := RunPage(service, page);
      && Searched(service, page + 1, Remember(runs, a.rows).Keys, l)
      && Concludes(service, page + 1, l, totals + {a.total}, capped || (a.total.Some? && a.total.value >= 1000))
    ensures Searched(service, page, runs.Keys, l) && Concludes(service, page, l, totals, capped)
  {
    var a := RunPage(service, page);
    RememberIds(runs, a.rows);
    MorePages(service, page, l.pages, |l.runs|);
    hide Remember, Ids, RunPage, AnswerIds, Counted, Overflown;
    forall x ensures x in l.runs <==> x in runs.Keys || exists q: nat | page <= q <= l.pages :: x in AnswerIds(RunPage(service, q)) {
      MoreRuns(service, page, l.pages, runs.Keys, Remember(runs, a.rows).Keys, x);
    }
    assert Full(service, page, l.pages);
  }

  lemma {:induction false} SearchFrom(service: Service, page: nat, runs: Runs, totals: set<Option<nat>>, capped: bool)
    requires 1 <= page <= 10
    ensures match Filtered(service, page, runs, totals, capped)
            case Err(code) => exists q: nat | page <= q <= 10 :: Full(service, page, q) && RunPage(service, q) == Refused(code)
            case Ok(l) => Searched(service, page, runs.Keys, l) && Concludes(service, page, l, totals, capped)
    decreases 10 - page
  {
    var a := RunPage(service, page);
    if a.Refused? {
      assert Full(service, page, page);
    } else if page < 10 && |a.rows| == 100 {
      var known, seen := Remember(runs, a.rows), totals + {a.total};
      var over := capped || (a.total.Some? && a.total.value >= 1000);
      SearchFrom(service, page + 1, known, seen, over);
      var r := Filtered(service, page + 1, known, seen, over);
      assert r == Filtered(service, page, runs, totals, capped);
      hide Remember, RunPage, Filtered;
      if r.Ok? {
        SearchGoesOn(service, page, runs, totals, capped, r.value);
      } else {
        var q: nat :| page + 1 <= q <= 10 && Full(service, page + 1, q) && RunPage(service, q) == Refused(r.error);
        assert Full(service, page, q);
      }
    } else {
      SearchStops(service, page, runs, totals, capped);
    }
  }

  /** MAIN RESULT. On any service, changing or not: the search fails exactly with the first refused page, if all before it
      were full. Otherwise it read pages from the first on, all full but the last, and hands over exactly
      their runs. Where a page counted a thousand matches, or the tenth was full, it claims nothing and asks for
      a scan from page one. Where not, it claims completeness exactly when every page reported one and the same
      count and that is the number of distinct runs found. */
  lemma SearchExactly(service: Service)
    ensures match Filtered(service, 1, map[], {}, false)
            case Err(code) => exists q: nat | 1 <= q <= 10 :: Full(service, 1, q) && RunPage(service, q) == Refused(code)
            case Ok(l) =>
              && Searched(service, 1, {}, l)
              && (if Overflown(service, 1, l.pages) || |RunPage(service, l.pages).rows| == 100
                  then !l.complete && l.code == Some(SearchCapped) && l.cursor == Some(1)
                  else && l.cursor == None && l.code == (if l.complete then None else Some(ScanPartial))
                       && (l.complete <==> Counted(service, 1, l.pages, |l.runs|)))
  {
    SearchFrom(service, 1, map[], {}, false);
    var none: Runs := map[];
    assert none.Keys == {};
    hide Filtered, RunPage;
  }

  /** MAIN RESULT. Over an unchanging listing below the cap, with every request answered and counted, a search is reported
      complete exactly when its rows are distinct runs, and then every matching run was handed over. */
  lemma SearchCompleteExactly(matching: seq<Row>, service: Service)
    requires Shows(matching, service) && |matching| < 1000
    requires forall page: nat | 1 <= page <= 10 ::
               RunPage(service, page).Batch? && RunPage(service, page).total == Some(|matching|)
    ensures var r := Filtered(service, 1, map[], {}, false);
      && r.Ok? && r.value.cursor == None && r.value.runs.Keys == Ids(matching)
      && (r.value.complete <==> |Ids(matching)| == |matching|)
  {
    SearchExactly(service);
    SearchNeverHidesTheCap(matching, service);
    var r := Filtered(service, 1, map[], {}, false);
    hide Filtered, Ids;
    assert r.Ok?;
    var l := r.value;
    assert RunPage(service, l.pages).rows == PageOf(Visible(matching), l.pages);
    assert l.pages == 10 ==> |RunPage(service, l.pages).rows| < 100;
    assert !Overflown(service, 1, l.pages);
    assert |l.runs| == |l.runs.Keys|;
    assert RunPage(service, 1).total == Some(|matching|);
  }

  /** Of several rows with one id the last is kept. */
  lemma {:induction false} LastRowKept(runs: Runs, rows: seq<Row>, id: int) returns (k: nat)
    requires id in Ids(rows)
    ensures k < |rows| && rows[k].Run? && rows[k].id == id
    ensures forall j | k < j < |rows| :: rows[j].Run? ==> rows[j].id != id
    ensures id in Remember(runs, rows) && Remember(runs, rows)[id] == rows[k]
    decreases |rows|
  {
    IdsStep(rows);
    var next := if rows[0].Run? then runs[rows[0].id := rows[0]] else runs;
    if id in Ids(rows[1..]) {
      k := LastRowKept(next, rows[1..], id);
      k := k + 1;
      assert forall j | 0 < j < |rows| :: rows[j] == rows[1..][j - 1];
    } else {
      k := 0;
      NotListed(next, rows[1..], id);
      forall j | 0 < j < |rows| && rows[j].Run? ensures rows[j].id != id {
        assert rows[j] == rows[1..][j - 1];
      }
    }
  }

  lemma {:induction false} NotListed(runs: Runs, rows: seq<Row>, id: int)
    requires id !in Ids(rows)
    ensures (id in Remember(runs, rows) <==> id in runs) && (id in runs ==> Remember(runs, rows)[id] == runs[id])
    decreases |rows|
  {
    if rows != [] {
      IdsStep(rows);
      NotListed(if rows[0].Run? then runs[rows[0].id := rows[0]] else runs, rows[1..], id);
    }
  }
}
