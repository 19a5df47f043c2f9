/** What the drains of one sweep find together, on a listing that does not change while they read it. */
module InboxSweeps {
  import opened Common
  import opened Inbox

  // ----- what one drain reads

  function Ids(rows: seq<Row>): set<int> { set i | 0 <= i < |rows| && rows[i].Run? :: rows[i].id }

  function AnswerIds(a: Answer): set<int> { if a.Batch? then Ids(a.rows) else {} }

  lemma {:induction false} RememberIds(runs: Runs, rows: seq<Row>)
    ensures Remember(runs, rows).Keys == runs.Keys + Ids(rows)
    decreases |rows|
  {
    if rows != [] {
      var next := if rows[0].Run? then runs[rows[0].id := rows[0]] else runs;
      RememberIds(next, rows[1..]);
      IdsStep(rows);
    }
  }

  lemma IdsStep(rows: seq<Row>)
    requires rows != []
    ensures Ids(rows) == Ids(rows[1..]) + if rows[0].Run? then {rows[0].id} else {}
  {
    forall x | x in Ids(rows) ensures x in Ids(rows[1..]) || (rows[0].Run? && x == rows[0].id) {
      var i :| 0 <= i < |rows| && rows[i].Run? && rows[i].id == x;
      if i > 0 {
        assert rows[1..][i - 1] == rows[i];
      }
    }
    forall x | x in Ids(rows[1..]) ensures x in Ids(rows) {
      var i :| 0 <= i < |rows[1..]| && rows[1..][i].Run? && rows[1..][i].id == x;
      assert rows[i + 1] == rows[1..][i];
    }
  }

  /** The shape of a drain: it asks its pages in order, stops at the first refusal or last page or after twenty, and
      hands over exactly what it read. */
  ghost predicate ReadUpTo(service: Service, first: nat, i: nat, known: set<int>, r: Listed)
    requires first >= 1
  {
    var order := PageOrder(first);
    && i < r.pages <= MAX_RUN_PAGES
    && (forall j | i <= j < r.pages - 1 :: RunPage(service, order[j]).Batch? && !Last(order[j], RunPage(service, order[j])))
    && (forall x :: x in r.runs <==> x in known || exists j | i <= j < r.pages :: x in AnswerIds(RunPage(service, order[j])))
  }

  ghost predicate Ended(service: Service, first: nat, r: Listed)
    requires first >= 1 && 1 <= r.pages <= MAX_RUN_PAGES
  {
    var page := PageOrder(first)[r.pages - 1];
    var a := RunPage(service, page);
    if a.Refused? then
      r.cursor == Some(if page == 1 then first else page - 1) && r.code == Some(a.code) && !r.complete
    else if Last(page, a) then r.cursor == None && r.total == a.total
    else r.pages == MAX_RUN_PAGES && r.cursor == Some(page) && r.code == Some(ScanPending) && !r.complete
  }

  /** The scan stops at this page. */
  predicate StopsAt(service: Service, first: nat, i: nat)
    requires first >= 1 && i < MAX_RUN_PAGES
  {
    var page := PageOrder(first)[i];
    RunPage(service, page).Refused? || Last(page, RunPage(service, page)) || i + 1 == MAX_RUN_PAGES
  }

  lemma ScanStops(service: Service, first: nat, i: nat, runs: Runs, totals: set<Option<nat>>)
    requires first >= 1 && i < MAX_RUN_PAGES && StopsAt(service, first, i)
    ensures var r := Scan(service, first, i, runs, totals);
            && r.pages == i + 1 && Ended(service, first, r)
            && r.runs.Keys == runs.Keys + AnswerIds(RunPage(service, PageOrder(first)[i]))
  {
    var a := RunPage(service, PageOrder(first)[i]);
    if a.Batch? {
      RememberIds(runs, a.rows);
    }
    hide Remember, Ids, Last;
  }

  lemma ScanGoesOn(service: Service, first: nat, i: nat, runs: Runs, totals: set<Option<nat>>)
    requires first >= 1 && i < MAX_RUN_PAGES && !StopsAt(service, first, i)
    ensures var a := RunPage(service, PageOrder(first)[i]);
            && a.Batch? && !Last(PageOrder(first)[i], a)
            && Remember(runs, a.rows).Keys == runs.Keys + AnswerIds(a)
            && Scan(service, first, i, runs, totals) == Scan(service, first, i + 1, Remember(runs, a.rows), totals + {a.total})
  {
    var a := RunPage(service, PageOrder(first)[i]);
    RememberIds(runs, a.rows);
    hide Remember, Ids, Last, PageOrder;
  }

  lemma ReadOne(service: Service, first: nat, i: nat, known: set<int>, r: Listed)
    requires first >= 1 && i < MAX_RUN_PAGES && r.pages == i + 1
    requires r.runs.Keys == known + AnswerIds(RunPage(service, PageOrder(first)[i]))
    ensures ReadUpTo(service, first, i, known, r)
  {
    hide PageOrder, Last, AnswerIds, RunPage;
    var order := PageOrder(first);
    forall x ensures x in r.runs <==> x in known || exists j | i <= j < r.pages :: x in AnswerIds(RunPage(service, order[j])) {
      if x in AnswerIds(RunPage(service, order[i])) {
        assert x in r.runs.Keys;
      }
    }
  }

  lemma {:induction false} ScanShape(service: Service, first: nat, i: nat, runs: Runs, totals: set<Option<nat>>)
    requires first >= 1 && i < MAX_RUN_PAGES
    ensures var r := Scan(service, first, i, runs, totals); ReadUpTo(service, first, i, runs.Keys, r) && Ended(service, first, r)
    decreases MAX_RUN_PAGES - i
  {
    if StopsAt(service, first, i) {
      ScanStops(service, first, i, runs, totals);
      ReadOne(service, first, i, runs.Keys, Scan(service, first, i, runs, totals));
    } else {
      assert i + 1 < MAX_RUN_PAGES;
      ScanGoesOn(service, first, i, runs, totals);
      hide *;
      var a := RunPage(service, PageOrder(first)[i]);
      var known := Remember(runs, a.rows);
      ScanShape(service, first, i + 1, known, totals + {a.total});
      ReadMore(service, first, i, runs.Keys, known.Keys, Scan(service, first, i, runs, totals));
    }
  }

  lemma ReadMore(service: Service, first: nat, i: nat, before: set<int>, known: set<int>, r: Listed)
    requires first >= 1 && i + 1 < MAX_RUN_PAGES && ReadUpTo(service, first, i + 1, known, r)
    requires var page := PageOrder(first)[i];
             var a := RunPage(service, page);
             a.Batch? && !Last(page, a) && known == before + AnswerIds(a)
    ensures ReadUpTo(service, first, i, before, r)
  {
    hide PageOrder, Last, AnswerIds, RunPage;
    var order := PageOrder(first);
    forall x | x in r.runs
      ensures x in before || exists j | i <= j < r.pages :: x in AnswerIds(RunPage(service, order[j]))
    {
      if x !in known {
        var j :| i + 1 <= j < r.pages && x in AnswerIds(RunPage(service, order[j]));
        assert i <= j;
      } else if x !in before {
        assert x in AnswerIds(RunPage(service, order[i]));
      }
    }
  }

  // ----- a listing that does not change

  function Min(a: nat, b: nat): nat { if a <= b then a else b }

  function PageOf(listing: seq<Row>, page: nat): seq<Row>
    requires page >= 1
  {
    listing[Min((page - 1) * PER_PAGE, |listing|)..Min(page * PER_PAGE, |listing|)]
  }

  /** Every request is refused or answered from this listing; the count may be missing. */
  ghost predicate Unchanging(listing: seq<Row>, service: Service) {
    forall page: nat | page >= 1 :: service(page).Refused? ||
      (service(page).rows == PageOf(listing, page) && (service(page).total == None || service(page).total == Some(|listing|)))
  }

  lemma TruePage(listing: seq<Row>, service: Service, page: nat)
    requires Unchanging(listing, service) && page >= 1
    ensures var a := RunPage(service, page);
            && (a.Batch? ==> a.rows == PageOf(listing, page) && (a.total == None || a.total == Some(|listing|)))
            && (a.Refused? <==> service(page).Refused?)
            && (a.Batch? ==> (Last(page, a) ==> page * PER_PAGE >= |listing|))
            && (a.Batch? ==> (page * PER_PAGE > |listing| ==> Last(page, a)))
            && (a.Batch? && a.total.Some? ==> (page * PER_PAGE >= |listing| ==> Last(page, a)))
  {
    assert service(page).Refused? || service(page).rows == PageOf(listing, page);
  }

  /** Every row is on its page, and no page holds anything else. */
  lemma RowOnPage(listing: seq<Row>, k: nat)
    requires k < |listing| && listing[k].Run?
    ensures listing[k].id in Ids(PageOf(listing, k / PER_PAGE + 1))
  {
    var page := k / PER_PAGE + 1;
    var low := (page - 1) * PER_PAGE;
    assert low <= k < page * PER_PAGE;
    var rows := PageOf(listing, page);
    assert rows[k - low] == listing[k];
  }

  lemma PageWithin(listing: seq<Row>, page: nat)
    requires page >= 1
    ensures Ids(PageOf(listing, page)) <= Ids(listing)
  {
    var low := Min((page - 1) * PER_PAGE, |listing|);
    var rows := PageOf(listing, page);
    forall x | x in Ids(rows) ensures x in Ids(listing) {
      var i :| 0 <= i < |rows| && rows[i].Run? && rows[i].id == x;
      assert listing[low + i] == rows[i];
    }
  }

  /** All pages before `cursor` have been read: their runs are among the found ones. */
  ghost predicate Behind(listing: seq<Row>, cursor: nat, found: set<int>) {
    forall page: nat | 1 <= page < cursor :: Ids(PageOf(listing, page)) <= found
  }

  lemma BehindEverything(listing: seq<Row>, cursor: nat, found: set<int>)
    requires Behind(listing, cursor, found) && cursor >= 1 && (cursor - 1) * PER_PAGE >= |listing|
    ensures Ids(listing) <= found
  {
    forall x | x in Ids(listing) ensures x in found {
      var k :| 0 <= k < |listing| && listing[k].Run? && listing[k].id == x;
      RowOnPage(listing, k);
      assert k / PER_PAGE + 1 < cursor;
    }
  }

  /** A page that one drain read is in what it hands over. */
  lemma ReadPage(service: Service, first: nat, r: Listed, j: nat)
    requires first >= 1 && ReadUpTo(service, first, 0, {}, r) && j < r.pages
    ensures AnswerIds(RunPage(service, PageOrder(first)[j])) <= r.runs.Keys
  {
    hide PageOrder, Last, AnswerIds, RunPage;
    forall x | x in AnswerIds(RunPage(service, PageOrder(first)[j])) ensures x in r.runs.Keys {
      assert x in r.runs;
    }
  }

  lemma DrainShape(service: Service, first: nat)
    requires first >= 1
    ensures ReadUpTo(service, first, 0, {}, Drain(service, first)) && Ended(service, first, Drain(service, first))
  {
    ScanShape(service, first, 0, map[], {});
    var none: Runs := map[];
    assert none.Keys == {};
    hide ReadUpTo, Ended, Scan;
  }

  /** The pages from the cursor on that a drain read. */
  lemma PagesRead(listing: seq<Row>, service: Service, first: nat, upTo: nat, found: set<int>)
    requires first >= 1 && Unchanging(listing, service) && Behind(listing, first, found)
    requires 1 <= Drain(service, first).pages <= MAX_RUN_PAGES
    requires var last := PageOrder(first)[Drain(service, first).pages - 1];
             upTo <= if RunPage(service, last).Batch? then last + 1 else last
    ensures Behind(listing, upTo, found + Drain(service, first).runs.Keys)
  {
    var r := Drain(service, first);
    DrainShape(service, first);
    forall page: nat | 1 <= page < upTo ensures Ids(PageOf(listing, page)) <= found + r.runs.Keys {
      if page >= first {
        var j := if first > 1 then page - first + 1 else page - 1;
        assert PageOrder(first)[j] == page;
        OnePageRead(listing, service, first, r, j);
      }
    }
  }

  lemma OnePageRead(listing: seq<Row>, service: Service, first: nat, r: Listed, j: nat)
    requires first >= 1 && Unchanging(listing, service) && ReadUpTo(service, first, 0, {}, r) && j < r.pages
    requires j == r.pages - 1 ==> RunPage(service, PageOrder(first)[j]).Batch?
    ensures PageOrder(first)[j] >= 1 && Ids(PageOf(listing, PageOrder(first)[j])) <= r.runs.Keys
  {
    ReadPage(service, first, r, j);
    TruePage(listing, service, PageOrder(first)[j]);
    assert RunPage(service, PageOrder(first)[j]).Batch?;
    hide ReadUpTo, PageOf, Ids, PageOrder, Unchanging, Last;
  }

  /** One drain of a sweep, with any page failing: what is behind the new cursor has been read, and when the
      sweep ends everything has. */
  lemma DrainKeepsBehind(listing: seq<Row>, service: Service, first: nat, found: set<int>)
    requires first >= 1 && Unchanging(listing, service) && Behind(listing, first, found)
    ensures var r := Drain(service, first); var now := found + r.runs.Keys;
            match r.cursor
            case None => Ids(listing) <= now
            case Some(cursor) => cursor >= 1 && Behind(listing, cursor, now)
  {
    var r := Drain(service, first);
    DrainShape(service, first);
    var page := PageOrder(first)[r.pages - 1];
    var a := RunPage(service, page);
    TruePage(listing, service, page);
    if a.Refused? {
      if page == 1 {
        assert r.cursor == Some(first);
      } else {
        PagesRead(listing, service, first, page - 1, found);
      }
    } else {
      PagesRead(listing, service, first, page + 1, found);
      if r.cursor.None? {
        BehindEverything(listing, page + 1, found + r.runs.Keys);
      }
    }
  }
}
