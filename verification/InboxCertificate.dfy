/** Whole sweeps, and what a listing reported as complete certifies. */
module InboxCertificate {
  import opened Common
  import opened Inbox
  import opened InboxSweeps

  // ----- sweeps

  /** Drains one after another, each from the cursor that the one before it saved, until one saves none. */
  function Sweep(services: seq<Service>, cursor: nat, found: set<int>): (Option<nat>, set<int>)
    requires cursor >= 1
    decreases |services|
  {
    if services == [] then (Some(cursor), found)
    else
      var r := Drain(services[0], cursor);
      var now := found + r.runs.Keys;
      if r.cursor.None? then (None, now)
      else Sweep(services[1..], CursorOf(services[0], cursor), now)
  }

  function CursorOf(service: Service, cursor: nat): (c: nat)
    requires cursor >= 1 && Drain(service, cursor).cursor.Some?
    ensures c >= 1 && Drain(service, cursor).cursor == Some(c)
  {
    DrainShape(service, cursor);
    hide Drain, ReadUpTo;
    Drain(service, cursor).cursor.value
  }

  /** MAIN RESULT. On an unchanging listing, whatever requests fail in whatever drains, every page before the saved cursor
      has been read in this sweep, and a sweep that ends has found every listed run. */
  lemma {:induction false} SweepFindsAll(listing: seq<Row>, services: seq<Service>, cursor: nat, found: set<int>)
    requires cursor >= 1 && Behind(listing, cursor, found) && forall s | s in services :: Unchanging(listing, s)
    ensures var (c, all) := Sweep(services, cursor, found);
            match c
            case None => Ids(listing) <= all
            case Some(page) => page >= 1 && Behind(listing, page, all)
    decreases |services|
  {
    if services != [] {
      var s := services[0];
      assert s in services && forall x | x in services[1..] :: x in services;
      DrainKeepsBehind(listing, s, cursor, found);
      if Drain(s, cursor).cursor.Some? {
        var next := CursorOf(s, cursor);
        hide Drain, Behind, Unchanging, Ids;
        SweepFindsAll(listing, services[1..], next, found + Drain(s, cursor).runs.Keys);
      }
    }
  }

  /** Nothing is found that is not listed. */
  lemma DrainWithin(listing: seq<Row>, service: Service, first: nat)
    requires first >= 1 && Unchanging(listing, service)
    ensures Drain(service, first).runs.Keys <= Ids(listing)
  {
    var r := Drain(service, first);
    DrainShape(service, first);
    forall j | 0 <= j < r.pages ensures AnswerIds(RunPage(service, PageOrder(first)[j])) <= Ids(listing) {
      TruePage(listing, service, PageOrder(first)[j]);
      PageWithin(listing, PageOrder(first)[j]);
    }
    hide Drain, AnswerIds, RunPage, PageOrder, Ids, Unchanging, Last;
    forall x | x in r.runs.Keys ensures x in Ids(listing) {
      assert x in r.runs;
      var j :| 0 <= j < r.pages && x in AnswerIds(RunPage(service, PageOrder(first)[j]));
    }
  }

  // ----- progress

  predicate FaultFree(service: Service, first: nat)
    requires first >= 1
  {
    forall i | 0 <= i < MAX_RUN_PAGES :: RunPage(service, PageOrder(first)[i]).Batch?
  }

  /** A drain without a failed page ends the sweep or moves the cursor on by at least eighteen pages, to a page that
      lies on the listing. */
  lemma DrainAdvances(listing: seq<Row>, service: Service, first: nat)
    requires first >= 1 && Unchanging(listing, service) && FaultFree(service, first)
    ensures var c := Drain(service, first).cursor;
            c.Some? ==> c.value >= first + 18 && c.value * PER_PAGE <= |listing|
  {
    var r := Drain(service, first);
    DrainShape(service, first);
    var page := PageOrder(first)[r.pages - 1];
    TruePage(listing, service, page);
    hide Drain, ReadUpTo;
  }

  ghost predicate FaultFreeSweep(services: seq<Service>, cursor: nat)
    requires cursor >= 1
    decreases |services|
  {
    services != [] ==>
      FaultFree(services[0], cursor)
      && (Drain(services[0], cursor).cursor.Some? ==> FaultFreeSweep(services[1..], CursorOf(services[0], cursor)))
  }

  /** MAIN RESULT. Without failures a sweep over a listing of `n` rows ends within `n / 1800 + 1` drains, whatever page
      it starts from. */
  lemma {:induction false} FaultFreeSweepEnds(listing: seq<Row>, services: seq<Service>, cursor: nat, found: set<int>)
    requires cursor >= 1 && FaultFreeSweep(services, cursor) && forall s | s in services :: Unchanging(listing, s)
    requires services != [] && (cursor + 18 * |services|) * PER_PAGE > |listing|
    ensures Sweep(services, cursor, found).0 == None
    decreases |services|
  {
    var s, rest := services[0], services[1..];
    assert s in services && forall x | x in rest :: x in services;
    DrainAdvances(listing, s, cursor);
    if Drain(s, cursor).cursor.Some? {
      var next := CursorOf(s, cursor);
      assert next >= cursor + 18 && next * PER_PAGE <= |listing|;
      assert rest != [];
      hide Drain, Unchanging, FaultFree;
      FaultFreeSweepEnds(listing, rest, next, found + Drain(s, cursor).runs.Keys);
    }
  }

  // ----- the certificate

  lemma {:induction false} ScanComplete(service: Service, first: nat, i: nat, runs: Runs, totals: set<Option<nat>>)
    requires first >= 1 && i < MAX_RUN_PAGES
    ensures var r := Scan(service, first, i, runs, totals);
            r.complete ==>
              && first == 1 && r.cursor == None && r.code == None && i < r.pages <= MAX_RUN_PAGES
              && totals <= {Some(|r.runs|)}
              && forall j | i <= j < r.pages ::
                   var a := RunPage(service, PageOrder(first)[j]); a.Batch? && a.total == Some(|r.runs|)
    decreases MAX_RUN_PAGES - i
  {
    if !StopsAt(service, first, i) {
      ScanGoesOn(service, first, i, runs, totals);
      var a := RunPage(service, PageOrder(first)[i]);
      ScanComplete(service, first, i + 1, Remember(runs, a.rows), totals + {a.total});
      hide Scan, Remember, Last, PageOrder, StopsAt;
    } else {
      hide Remember, PageOrder;
    }
  }

  /** On any listing, changing or not: completeness is claimed only by a scan from the first page, of which every page up
      to a last one was answered and reported the same count, which is the number of distinct runs it found. */
  lemma CompleteIsCertified(service: Service, first: nat)
    requires first >= 1 && Drain(service, first).complete
    ensures var r := Drain(service, first);
            && first == 1 && r.cursor == None && 1 <= r.pages <= MAX_RUN_PAGES
            && (forall page: nat | 1 <= page <= r.pages ::
                  RunPage(service, page).Batch? && RunPage(service, page).total == Some(|r.runs|))
            && Last(r.pages, RunPage(service, r.pages))
  {
    var r := Drain(service, first);
    ScanComplete(service, first, 0, map[], {});
    DrainShape(service, first);
    assert r.pages >= 1 && PageOrder(1)[r.pages - 1] == r.pages;
    hide Scan, ReadUpTo, Drain, Last, RunPage;
    forall page: nat | 1 <= page <= r.pages
      ensures RunPage(service, page).Batch? && RunPage(service, page).total == Some(|r.runs|)
    {
      assert PageOrder(1)[page - 1] == page;
    }
  }

  lemma {:induction false} ScanCompletes(service: Service, i: nat, runs: Runs, totals: set<Option<nat>>, n: nat)
    requires i < MAX_RUN_PAGES && totals <= {Some(n)}
    requires forall j | i <= j < MAX_RUN_PAGES ::
               var a := RunPage(service, PageOrder(1)[j]); a.Batch? && a.total == Some(n)
    ensures var r := Scan(service, 1, i, runs, totals); r.complete <==> r.cursor.None? && |r.runs| == n
    decreases MAX_RUN_PAGES - i
  {
    var a := RunPage(service, PageOrder(1)[i]);
    assert a.total == Some(n) && totals + {a.total} == {Some(n)};
    if !StopsAt(service, 1, i) {
      ScanGoesOn(service, 1, i, runs, totals);
      hide Scan, Remember, Last, PageOrder, StopsAt;
      ScanCompletes(service, i + 1, Remember(runs, a.rows), totals + {a.total}, n);
    } else {
      hide Remember, PageOrder;
    }
  }

  /** MAIN RESULT. A scan from the first page over an unchanging listing, with every request answered and counted, is
      reported complete exactly when the listing fits in twenty pages and its rows are distinct runs; and then every
      listed run was handed over. */
  lemma CompleteExactly(listing: seq<Row>, service: Service)
    requires Unchanging(listing, service)
    requires forall page: nat | 1 <= page <= MAX_RUN_PAGES ::
               RunPage(service, page).Batch? && RunPage(service, page).total == Some(|listing|)
    ensures Drain(service, 1).complete <==> |listing| <= MAX_RUN_PAGES * PER_PAGE && |Ids(listing)| == |listing|
    ensures Drain(service, 1).complete ==> Drain(service, 1).runs.Keys == Ids(listing)
  {
    var r := Drain(service, 1);
    ScanCompletes(service, 0, map[], {}, |listing|);
    DrainShape(service, 1);
    DrainKeepsBehind(listing, service, 1, {});
    DrainWithin(listing, service, 1);
    TruePage(listing, service, PageOrder(1)[r.pages - 1]);
    hide Drain, Scan, ReadUpTo, Ids, Unchanging, Behind;
    assert |r.runs| == |r.runs.Keys|;
    if r.cursor.None? {
      assert r.runs.Keys == Ids(listing);
    }
  }
}
