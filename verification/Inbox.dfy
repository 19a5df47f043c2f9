/** How one drain lists the runs of the command workflow: a capped filtered search, or a stretch of an unfiltered
    scan that continues where the last drain stopped. */
module Inbox {
  import opened Common

  const PER_PAGE: nat := 100
  const MAX_RUN_PAGES: nat := 20
  const FILTERED_RUN_LIMIT: nat := 1000

  /** One listed row. `refusal` is the verdict on its path, event, branch and repository; `created` its creation
      time when that can be read, and `stamp` the place of the text of that time in string order. */
  datatype Row = Junk | Run(id: int, stamp: int, created: Option<int>, refusal: Option<string>)

  type Runs = map<int, Row>

  datatype Code = ListingInvalid | RequestFailed | ScanPartial | ScanPending | SearchCapped

  /** What the service answers to one request. */
  datatype Answer = Batch(rows: seq<Row>, total: Option<nat>) | Refused(code: Code)

  /** The answers to the requests of one drain, by page. No drain asks for a page twice. */
  type Service = nat -> Answer

  datatype Listed = Listed(runs: Runs, complete: bool, pages: nat, total: Option<nat>, code: Option<Code>, cursor: Option<nat>)

  /** `_run_page`: a batch that is too long is refused like one that cannot be read. */
  function RunPage(service: Service, page: nat): (a: Answer)
    ensures a.Batch? ==> |a.rows| <= PER_PAGE && a == service(page)
  {
    var a := service(page);
    if a.Batch? && |a.rows| > PER_PAGE then Refused(ListingInvalid) else a
  }

  /** `_remember_runs`, as a function. */
  function Remember(runs: Runs, rows: seq<Row>): Runs
    decreases |rows|
  {
    if rows == [] then runs
    else Remember(if rows[0].Run? then runs[rows[0].id := rows[0]] else runs, rows[1..])
  }

  method RememberRuns(known: Runs, rows: seq<Row>) returns (runs: Runs)
    ensures runs == Remember(known, rows)
  {
    runs := known;
    for i := 0 to |rows|
      invariant Remember(runs, rows[i..]) == Remember(known, rows)
    {
      assert rows[i..][0] == rows[i] && rows[i..][1..] == rows[i + 1..];
      if rows[i].Run? {
        runs := runs[rows[i].id := rows[i]];
      }
    }
  }

  function Range(low: nat, high: nat): (s: seq<nat>)
    requires low <= high
    ensures |s| == high - low && forall i | 0 <= i < |s| :: s[i] == low + i
    decreases high - low
  {
    if low == high then [] else [low] + Range(low + 1, high)
  }

  /** The pages one unfiltered drain may ask for: the head again, then nineteen from the cursor. */
  function PageOrder(first: nat): (pages: seq<nat>)
    requires first >= 1
    ensures |pages| == MAX_RUN_PAGES
    ensures forall i | 0 <= i < |pages| :: pages[i] == if first > 1 && i > 0 then first + i - 1 else i + 1
  {
    if first > 1 then [1] + Range(first, first + MAX_RUN_PAGES - 1) else Range(1, MAX_RUN_PAGES + 1)
  }

  predicate Last(page: nat, a: Answer) {
    a.Batch? && (|a.rows| < PER_PAGE || (a.total.Some? && page * PER_PAGE >= a.total.value))
  }

  /** The scan from the `i`-th page on. */
  function Scan(service: Service, first: nat, i: nat, runs: Runs, totals: set<Option<nat>>): Listed
    requires first >= 1 && i < MAX_RUN_PAGES
    decreases MAX_RUN_PAGES - i
  {
    var page := PageOrder(first)[i];
    var a := RunPage(service, page);
    if a.Refused? then
      Listed(runs, false, i + 1, None, Some(a.code), Some(if page == 1 then first else if page > 1 then page - 1 else 1))
    else
      var known, seen := Remember(runs, a.rows), totals + {a.total};
      if Last(page, a) then
        var complete := first == 1 && a.total.Some? && seen == {Some(|known|)};
        Listed(known, complete, i + 1, a.total, if complete then None else Some(ScanPartial), None)
      else if i + 1 == MAX_RUN_PAGES then Listed(known, false, i + 1, None, Some(ScanPending), Some(page))
      else Scan(service, first, i + 1, known, seen)
  }

  function Drain(service: Service, first: nat): Listed
    requires first >= 1
  {
    Scan(service, first, 0, map[], {})
  }

  /** `_list_unfiltered` */
  method ListUnfiltered(service: Service, first: nat) returns (r: Listed)
    requires first >= 1
    ensures r == Drain(service, first)
  {
    var pages := PageOrder(first);
    var runs: Runs := map[];
    var totals: set<Option<nat>> := {};
    var scanned := 0;
    var page: nat := 1;
    for i := 0 to MAX_RUN_PAGES
      invariant i < MAX_RUN_PAGES ==> Scan(service, first, i, runs, totals) == Drain(service, first)
      invariant i == MAX_RUN_PAGES ==> Listed(runs, false, scanned, None, Some(ScanPending), Some(page)) == Drain(service, first)
      invariant scanned == i
    {
      page := pages[i];
      scanned := scanned + 1;
      var a := RunPage(service, page);
      if a.Refused? {
        var back := if page != 1 then (if page > 1 then page - 1 else 1) else first;
        return Listed(runs, false, scanned, None, Some(a.code), Some(back));
      }
      totals := totals + {a.total};
      runs := RememberRuns(runs, a.rows);
      if |a.rows| < PER_PAGE || (a.total.Some? && page * PER_PAGE >= a.total.value) {
        var complete := first == 1 && a.total.Some? && totals == {Some(|runs|)};
        return Listed(runs, complete, scanned, a.total, if complete then None else Some(ScanPartial), None);
      }
    }
    r := Listed(runs, false, scanned, None, Some(ScanPending), Some(page));
  }

  // ----- the filtered search

  function Filtered(service: Service, page: nat, runs: Runs, totals: set<Option<nat>>, capped: bool): Result<Listed, Code>
    requires 1 <= page <= FILTERED_RUN_LIMIT / PER_PAGE
    decreases FILTERED_RUN_LIMIT / PER_PAGE - page
  {
    var limit := FILTERED_RUN_LIMIT / PER_PAGE;
    var a := RunPage(service, page);
    if a.Refused? then Err(a.code)
    else
      var known, seen := Remember(runs, a.rows), totals + {a.total};
      var over := capped || (a.total.Some? && a.total.value >= FILTERED_RUN_LIMIT);
      if page < limit && |a.rows| == PER_PAGE then Filtered(service, page + 1, known, seen, over)
      else if over || |a.rows| == PER_PAGE then
        Ok(Listed(known, false, page, a.total, Some(SearchCapped), Some(1)))
      else
        var complete := a.total.Some? && seen == {Some(|known|)};
        Ok(Listed(known, complete, page, a.total, if complete then None else Some(ScanPartial), None))
  }

  /** `list_runs`: a usable cursor continues the unfiltered scan, otherwise the filtered search is made. */
  method ListRuns(service: Service, cursor: Option<nat>, usable: bool) returns (r: Result<Listed, Code>)
    requires cursor.Some? ==> cursor.value >= 1
    ensures r == if cursor.Some? && usable then Ok(Drain(service, cursor.value))
                 else Filtered(service, 1, map[], {}, false)
  {
    if cursor.Some? && usable {
      var listed := ListUnfiltered(service, cursor.value);
      return Ok(listed);
    }
    var runs: Runs := map[];
    var totals: set<Option<nat>> := {};
    var limit := FILTERED_RUN_LIMIT / PER_PAGE;
    var capped := false;
    for page := 1 to limit + 1
      invariant page <= limit ==> Filtered(service, page, runs, totals, capped) == Filtered(service, 1, map[], {}, false)
      invariant page <= limit
    {
      var a := RunPage(service, page);
      if a.Refused? {
        return Err(a.code);
      }
      totals := totals + {a.total};
      runs := RememberRuns(runs, a.rows);
      capped := capped || (a.total.Some? && a.total.value >= FILTERED_RUN_LIMIT);
      if page < limit && |a.rows| == PER_PAGE {
        continue;
      }
      if capped || |a.rows| == PER_PAGE {
        return Ok(Listed(runs, false, page, a.total, Some(SearchCapped), Some(1)));
      }
      var complete := a.total.Some? && totals == {Some(|runs|)};
      return Ok(Listed(runs, complete, page, a.total, if complete then None else Some(ScanPartial), None));
    }
    assert false;
    r := Err(ListingInvalid);
  }
}
