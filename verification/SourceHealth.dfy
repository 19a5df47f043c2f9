/** The rolling health log of a source: rebuilding it from any pile of observations, and why two
    logs can be merged in any order and grouping. */
module SourceHealth {
  import opened Common
  import opened Sorting

  datatype Metric = Duration | Observed | Promoted | TriagedIn | TriagedOut | WriterAttempted | Drafted

  const METRICS: seq<Metric> := [Duration, Observed, Promoted, TriagedIn, TriagedOut, WriterAttempted, Drafted]
  const STATUSES: seq<string> := ["success", "degraded", "failed", "skipped"]
  const WINDOW: int := 7 * 86400
  const MAX_RUNS: nat := 10

  /** One observation, at the instant its timestamp is read as; an empty error is none. */
  datatype Run = Run(ts: int, status: string, error: Option<string>, errorClass: Option<string>, metrics: map<Metric, int>)

  function StatusOf(status: string): string {
    if status == "partial_failure" then "degraded" else if status in STATUSES then status else "failed"
  }

  /** The entry kept for an observation: a known status, and only positive metrics. */
  function Canon(r: Run): Run {
    r.(status := StatusOf(r.status), metrics := map m | m in r.metrics && r.metrics[m] > 0 :: r.metrics[m])
  }

  // ----- the retained entries

  function Latest(runs: seq<Run>): int
    requires runs != []
  {
    if |runs| == 1 then runs[0].ts
    else var rest := Latest(runs[1..]); if rest > runs[0].ts then rest else runs[0].ts
  }

  predicate ByTime(a: Run, b: Run) { a.ts <= b.ts }

  /** Two entries count as one when time, status and error agree; the metrics are not compared. */
  datatype Key = Key(ts: int, status: string, error: Option<string>, errorClass: Option<string>)

  function KeyOf(r: Run): Key { Key(r.ts, r.status, r.error, r.errorClass) }

  /** The entries of a time-ordered pile that are in the window and not seen before. */
  function Collect(runs: seq<Run>, cutoff: int, seen: set<Key>): seq<Run> {
    if runs == [] then []
    else
      var entry := Canon(runs[0]);
      if entry.ts < cutoff || KeyOf(entry) in seen then Collect(runs[1..], cutoff, seen)
      else [entry] + Collect(runs[1..], cutoff, seen + {KeyOf(entry)})
  }

  function Entries(runs: seq<Run>): seq<Run> {
    if runs == [] then []
    else LastOnes(Collect(Sort(runs, (a, b) => ByTime(a, b)), Latest(runs) - WINDOW, {}), MAX_RUNS)
  }

  // ----- the counters

  function Count(runs: seq<Run>, status: string): nat {
    if runs == [] then 0 else (if runs[0].status == status then 1 else 0) + Count(runs[1..], status)
  }

  function Value(r: Run, m: Metric): int { if m in r.metrics then r.metrics[m] else 0 }

  function Total(runs: seq<Run>, m: Metric): int {
    if runs == [] then 0 else Value(runs[0], m) + Total(runs[1..], m)
  }

  function Timed(runs: seq<Run>): nat {
    if runs == [] then 0 else (if Duration in runs[0].metrics then 1 else 0) + Timed(runs[1..])
  }

  function Longest(runs: seq<Run>): int {
    if runs == [] then 0
    else var rest := Longest(runs[1..]); if Value(runs[0], Duration) > rest then Value(runs[0], Duration) else rest
  }

  /** Python's `round` of a quotient: to the nearest integer, ties to the even one. */
  function RoundedQuotient(a: int, n: nat): int
    requires n > 0
  {
    var q, r := a / n, a % n;
    if 2 * r < n || (2 * r == n && q % 2 == 0) then q else q + 1
  }

  function Failing(r: Run): bool { (r.status == "degraded" || r.status == "failed") && r.error.Some? }

  function LastSuccess(runs: seq<Run>): Option<int> {
    if runs == [] then None
    else if runs[|runs| - 1].status == "success" then Some(runs[|runs| - 1].ts) else LastSuccess(runs[..|runs| - 1])
  }

  function LastError(runs: seq<Run>): Option<(string, int)> {
    if runs == [] then None
    else
      var last := runs[|runs| - 1];
      if Failing(last) then Some((last.error.value, last.ts)) else LastError(runs[..|runs| - 1])
  }

  datatype Health = Health(
    counts: map<string, nat>,
    totals: map<Metric, int>,
    longest: int,
    average: Option<int>,
    lastSuccess: Option<int>,
    lastError: Option<(string, int)>,
    runs: seq<Run>)

  /** The summary of a list of entries. */
  function Summary(runs: seq<Run>): Health {
    Health(map s | s in STATUSES :: Count(runs, s), map m | m in METRICS :: Total(runs, m), Longest(runs),
           if Timed(runs) == 0 then None else Some(RoundedQuotient(Total(runs, Duration), Timed(runs))),
           LastSuccess(runs), LastError(runs), runs)
  }

  function Rebuild(runs: seq<Run>): Health { Summary(Entries(runs)) }

  /** `_merge_source_health` for one source. */
  function Merge(a: Health, b: Health): Health { Rebuild(a.runs + b.runs) }

  // ----- what is retained, said without any list

  predicate InWindow(s: set<Run>, r: Run) {
    forall x | x in s :: x.ts - WINDOW <= r.ts
  }

  ghost predicate Distinct(s: set<Run>) {
    forall x, y | x in s && y in s && x.ts == y.ts :: x == y
  }

  /** `u` holds the newest entries of `s`: ten of them, or all that are in the window. */
  ghost predicate Newest(s: set<Run>, u: set<Run>) {
    && u <= s && |u| <= MAX_RUNS
    && (forall x, y | x in u && y in s && y.ts > x.ts :: y in u)
    && (forall x | x in u :: InWindow(s, x))
    && (|u| == MAX_RUNS || forall y | y in s && InWindow(s, y) :: y in u)
  }

  lemma Comparable(s: set<Run>, u: set<Run>, v: set<Run>)
    requires Distinct(s) && Newest(s, u) && Newest(s, v)
    ensures u <= v || v <= u
  {
    if x :| x in u && x !in v {
      forall y | y in v ensures y in u {
        assert y.ts == x.ts ==> y == x;
      }
    }
  }

  /** There is only one such set. */
  lemma NewestUnique(s: set<Run>, u: set<Run>, v: set<Run>)
    requires Distinct(s) && Newest(s, u) && Newest(s, v)
    ensures u == v
  {
    Comparable(s, u, v);
    if u < v {
      StrictlySmaller(u, v);
    } else if v < u {
      StrictlySmaller(v, u);
    }
  }

  lemma StrictlySmaller(u: set<Run>, v: set<Run>)
    requires u < v
    ensures |u| < |v|
  {
    var x :| x in v && x !in u;
    assert u <= v - {x};
    SubsetSize(u, v - {x});
  }

  /** The newest entry of a pile is always retained. */
  lemma LatestRetained(s: set<Run>, u: set<Run>, top: Run)
    requires Newest(s, u) && top in s && forall x | x in s :: x.ts <= top.ts
    requires Distinct(s)
    ensures top in u
  {
    if |u| == MAX_RUNS {
      var x :| x in u;
      assert x.ts == top.ts ==> x == top;
    }
  }

  lemma {:induction false} HasLatest(s: set<Run>) returns (top: Run)
    requires s != {}
    ensures top in s && forall x | x in s :: x.ts <= top.ts
    decreases s
  {
    top :| top in s;
    if s != {top} {
      var rest := HasLatest(s - {top});
      if rest.ts > top.ts {
        top := rest;
      }
    }
  }

  /** Dropping what a smaller pile drops does not change the window of the larger one. */
  lemma SameWindow(a: set<Run>, b: set<Run>, u: set<Run>, r: Run)
    requires Distinct(a) && Newest(a, u)
    ensures InWindow(u + b, r) <==> InWindow(a + b, r)
  {
    if a != {} && InWindow(u + b, r) {
      var top := HasLatest(a);
      LatestRetained(a, u, top);
      assert top in u + b;
    }
  }

  /** Ten entries of `u` that are all newer than `x` fill any newest set that contains them. */
  lemma TooMany(u: set<Run>, v: set<Run>, x: Run)
    requires u <= v && x in v && x !in u && |u| == MAX_RUNS
    ensures |v| > MAX_RUNS
  {
    SubsetSize(u, v - {x});
  }

  /** An entry that the smaller pile dropped, and that is newer than `x`: then ten others are newer
      still, or the window had already closed. */
  lemma DroppedMeansFull(a: set<Run>, b: set<Run>, u: set<Run>, y: Run)
    requires Distinct(a + b) && Newest(a, u) && y in a && y !in u && InWindow(a + b, y)
    ensures |u| == MAX_RUNS && forall x | x in u :: x.ts > y.ts
  {
    assert InWindow(a, y);
    forall x | x in u ensures x.ts > y.ts {
      assert x in a + b && y in a + b;
      assert x.ts == y.ts ==> x == y;
    }
  }

  /** Retaining in two steps is retaining in one: the newest of (the newest of `a`) and `b` are the
      newest of `a` and `b`. */
  lemma NewestAbsorbs(a: set<Run>, b: set<Run>, u: set<Run>, v: set<Run>)
    requires Distinct(a + b) && Newest(a, u) && Newest(u + b, v)
    ensures Newest(a + b, v)
  {
    assert Distinct(a);
    forall r { SameWindow(a, b, u, r); }
    assert v <= a + b;
    forall x, y | x in v && y in a + b && y.ts > x.ts ensures y in v {
      if y !in u + b {
        assert InWindow(a + b, y);
        DroppedMeansFull(a, b, u, y);
        assert u <= v;
        TooMany(u, v, x);
      }
    }
    if |v| != MAX_RUNS {
      forall y | y in a + b && InWindow(a + b, y) ensures y in v {
        if y !in u + b {
          DroppedMeansFull(a, b, u, y);
          forall x | x in u ensures x in v {
            assert InWindow(a + b, x);
          }
          SubsetSize(u, v);
        }
      }
    }
  }

  // ----- lists of entries

  function CanonSet(runs: seq<Run>): set<Run> { set r | r in runs :: Canon(r) }

  function Elements(runs: seq<Run>): set<Run> { set r | r in runs }

  ghost predicate Increasing(runs: seq<Run>) {
    forall i, j | 0 <= i < j < |runs| :: runs[i].ts < runs[j].ts
  }

  /** No two different entries share an instant. */
  ghost predicate Agree(runs: seq<Run>) { Distinct(CanonSet(runs)) }

  lemma CanonTwice(r: Run)
    ensures Canon(Canon(r)) == Canon(r)
  {
    assert StatusOf(StatusOf(r.status)) == StatusOf(r.status);
    assert Canon(Canon(r)).metrics == Canon(r).metrics;
  }

  lemma {:induction false} LatestIsMax(runs: seq<Run>)
    requires runs != []
    ensures forall r | r in runs :: r.ts <= Latest(runs)
    ensures exists r | r in runs :: r.ts == Latest(runs)
  {
    assert runs == [runs[0]] + runs[1..];
    if |runs| > 1 {
      LatestIsMax(runs[1..]);
    }
  }

  /** Whether an entry of a pile is collected. */
  predicate Due(e: Run, cutoff: int, seen: set<Key>) { e.ts >= cutoff && KeyOf(e) !in seen }

  /** In a time-ordered pile the later entries are not older, and only an equal one counts as the same. */
  lemma FirstIsOldest(runs: seq<Run>)
    requires runs != [] && Sorted(runs, (a, b) => ByTime(a, b)) && Agree(runs)
    ensures CanonSet(runs) == {Canon(runs[0])} + CanonSet(runs[1..])
    ensures Agree(runs[1..]) && Sorted(runs[1..], (a, b) => ByTime(a, b))
    ensures forall e | e in CanonSet(runs[1..]) ::
      e.ts >= runs[0].ts && (e.ts == runs[0].ts ==> e == Canon(runs[0]))
  {
    var rest := runs[1..];
    assert runs == [runs[0]] + rest;
    var first := Canon(runs[0]);
    assert CanonSet(runs) == {first} + CanonSet(rest);
    forall e | e in CanonSet(rest) ensures e.ts >= first.ts && (e.ts == first.ts ==> e == first) {
      var r :| r in rest && Canon(r) == e;
      assert ByTime(runs[0], r);
    }
  }

  lemma CollectUnfold(runs: seq<Run>, cutoff: int, seen: set<Key>)
    requires runs != []
    ensures var first := Canon(runs[0]);
            Collect(runs, cutoff, seen) ==
              if first.ts < cutoff || KeyOf(first) in seen then Collect(runs[1..], cutoff, seen)
              else [first] + Collect(runs[1..], cutoff, seen + {KeyOf(first)})
  {
    hide Canon;
  }

  /** An entry that is due, in front of what is collected after it. */
  lemma DueStep(first: Run, rest: set<Run>, cutoff: int, seen: set<Key>, c: seq<Run>)
    requires first.ts >= cutoff && KeyOf(first) !in seen && Increasing(c)
    requires forall e: Run :: e in c <==> e in rest && Due(e, cutoff, seen + {KeyOf(first)})
    requires forall e | e in rest :: e.ts >= first.ts && (e.ts == first.ts ==> e == first)
    ensures Increasing([first] + c)
    ensures forall e: Run :: e in [first] + c <==> (e == first || e in rest) && Due(e, cutoff, seen)
  {
    var all := [first] + c;
    forall e: Run ensures e in all <==> (e == first || e in rest) && Due(e, cutoff, seen) {
      assert e in all <==> e == first || e in c;
      assert KeyOf(e) == KeyOf(first) ==> e.ts == first.ts;
    }
    forall e | e in c ensures first.ts < e.ts {
      assert e in rest && e != first;
    }
  }

  /** What is collected from a time-ordered pile: every due entry once, in strict time order. */
  lemma {:induction false} Collected(runs: seq<Run>, cutoff: int, seen: set<Key>)
    requires Sorted(runs, (a, b) => ByTime(a, b)) && Agree(runs)
    ensures Increasing(Collect(runs, cutoff, seen))
    ensures forall e: Run :: e in Collect(runs, cutoff, seen) <==> e in CanonSet(runs) && Due(e, cutoff, seen)
  {
    if runs != [] {
      var rest := runs[1..];
      var first := Canon(runs[0]);
      FirstIsOldest(runs);
      CanonTime(runs[0]);
      CollectUnfold(runs, cutoff, seen);
      hide Canon, Agree, CanonSet, Sorted, Collect, Increasing;
      if first.ts < cutoff || KeyOf(first) in seen {
        Collected(rest, cutoff, seen);
      } else {
        Collected(rest, cutoff, seen + {KeyOf(first)});
        DueStep(first, CanonSet(rest), cutoff, seen, Collect(rest, cutoff, seen + {KeyOf(first)}));
      }
    }
  }

  lemma CanonTime(r: Run)
    ensures Canon(r).ts == r.ts
  {
  }

  lemma {:induction false} ElementCount(runs: seq<Run>)
    requires Increasing(runs)
    ensures |Elements(runs)| == |runs|
  {
    if runs != [] {
      var rest := runs[1..];
      assert runs == [runs[0]] + rest;
      ElementCount(rest);
      assert runs[0] !in Elements(rest);
      assert Elements(runs) == {runs[0]} + Elements(rest);
    }
  }

  /** A list in strict time order is determined by its elements. */
  lemma {:induction false} IncreasingUnique(a: seq<Run>, b: seq<Run>)
    requires Increasing(a) && Increasing(b) && Elements(a) == Elements(b)
    ensures a == b
  {
    ElementCount(a);
    ElementCount(b);
    if a != [] {
      var x, y := a[0], b[0];
      assert x in Elements(b) && y in Elements(a);
      assert x == y;
      assert a == [x] + a[1..] && b == [y] + b[1..];
      assert x !in a[1..] && y !in b[1..];
      assert Elements(a[1..]) == Elements(a) - {x} == Elements(b[1..]);
      IncreasingUnique(a[1..], b[1..]);
    }
  }

  /** The entries of a rebuilt log are exactly the newest ones of the pile, in time order. */
  lemma EntriesAreNewest(runs: seq<Run>)
    requires Agree(runs)
    ensures Newest(CanonSet(runs), Elements(Entries(runs))) && Increasing(Entries(runs))
  {
    if runs != [] {
      var le := (a, b) => ByTime(a, b);
      var sorted := Sort(runs, le);
      SortSorts(runs, le);
      forall r: Run ensures r in sorted <==> r in runs {
        SortMembers(runs, le, r);
      }
      assert CanonSet(sorted) == CanonSet(runs);
      LatestIsMax(runs);
      var cutoff := Latest(runs) - WINDOW;
      Collected(sorted, cutoff, {});
      var all := Collect(sorted, cutoff, {});
      TailIsNewest(CanonSet(runs), all, cutoff, runs);
    }
  }

  /** The window, seen from the latest observation. */
  lemma WindowIsCutoff(runs: seq<Run>, r: Run)
    requires runs != []
    ensures InWindow(CanonSet(runs), r) <==> r.ts >= Latest(runs) - WINDOW
  {
    LatestIsMax(runs);
    var top :| top in runs && top.ts == Latest(runs);
    assert Canon(top) in CanonSet(runs);
  }

  lemma TailHas(all: seq<Run>, d: nat, y: Run)
    requires Increasing(all) && d <= |all| && y in all
    requires d < |all| ==> y.ts >= all[d].ts
    requires d < |all|
    ensures y in all[d..]
  {
    var j :| 0 <= j < |all| && all[j] == y;
    assert j >= d;
    assert all[d..][j - d] == y;
  }

  lemma LastOnesIncrease(all: seq<Run>)
    requires Increasing(all)
    ensures var kept := LastOnes(all, MAX_RUNS);
      && Increasing(kept) && |kept| <= MAX_RUNS && (|kept| == MAX_RUNS || kept == all)
      && (forall x | x in kept :: x in all)
      && (forall x, y | x in kept && y in all && y.ts > x.ts :: y in kept)
  {
    var kept := LastOnes(all, MAX_RUNS);
    if |all| > MAX_RUNS {
      var d := |all| - MAX_RUNS;
      assert kept == all[d..];
      forall x, y | x in kept && y in all && y.ts > x.ts ensures y in kept {
        var i :| 0 <= i < |kept| && kept[i] == x;
        assert x == all[d + i] && x.ts >= all[d].ts;
        TailHas(all, d, y);
      }
    }
  }

  lemma TailIsNewest(s: set<Run>, all: seq<Run>, cutoff: int, runs: seq<Run>)
    requires runs != [] && s == CanonSet(runs) && cutoff == Latest(runs) - WINDOW
    requires Increasing(all) && forall e: Run :: e in all <==> e in s && e.ts >= cutoff
    ensures Newest(s, Elements(LastOnes(all, MAX_RUNS))) && Increasing(LastOnes(all, MAX_RUNS))
  {
    var kept := LastOnes(all, MAX_RUNS);
    LastOnesIncrease(all);
    ElementCount(kept);
    forall r: Run ensures InWindow(s, r) <==> r.ts >= cutoff {
      WindowIsCutoff(runs, r);
    }
    hide LastOnes, InWindow, CanonSet, Latest;
  }

  /** The rebuilt log depends only on which entries there are, not on their order or number. */
  lemma RebuildBySet(xs: seq<Run>, ys: seq<Run>)
    requires Agree(xs) && CanonSet(xs) == CanonSet(ys)
    ensures Rebuild(xs) == Rebuild(ys)
  {
    EntriesAreNewest(xs);
    EntriesAreNewest(ys);
    NewestUnique(CanonSet(xs), Elements(Entries(xs)), Elements(Entries(ys)));
    IncreasingUnique(Entries(xs), Entries(ys));
  }

  lemma CanonSetUnion(xs: seq<Run>, ys: seq<Run>)
    ensures CanonSet(xs + ys) == CanonSet(xs) + CanonSet(ys)
  {
  }

  /** Entries of a log are entries already. */
  lemma EntriesAreCanon(runs: seq<Run>)
    requires Agree(runs)
    ensures CanonSet(Entries(runs)) == Elements(Entries(runs))
  {
    EntriesAreNewest(runs);
    forall e | e in Entries(runs) ensures Canon(e) == e {
      assert e in Elements(Entries(runs));
      var r :| r in runs && Canon(r) == e;
      CanonTwice(r);
    }
  }

  /** MAIN RESULT. Rebuilding a log and then adding observations is rebuilding from everything at once. */
  lemma RebuildAbsorbs(xs: seq<Run>, ys: seq<Run>)
    requires Agree(xs + ys)
    ensures Rebuild(Rebuild(xs).runs + ys) == Rebuild(xs + ys)
  {
    var u := Entries(xs);
    CanonSetUnion(xs, ys);
    CanonSetUnion(u, ys);
    EntriesAreNewest(xs);
    EntriesAreCanon(xs);
    var a, b := CanonSet(xs), CanonSet(ys);
    hide Rebuild, Entries, CanonSet;
    AgreeWithin(u + ys, xs + ys);
    hide *;
    EntriesAreNewest(u + ys);
    EntriesAreNewest(xs + ys);
    NewestAbsorbs(a, b, Elements(u), Elements(Entries(u + ys)));
    NewestUnique(a + b, Elements(Entries(u + ys)), Elements(Entries(xs + ys)));
    IncreasingUnique(Entries(u + ys), Entries(xs + ys));
    SameEntries(u + ys, xs + ys);
    RunsOfRebuild(xs);
  }

  lemma SameEntries(xs: seq<Run>, ys: seq<Run>)
    requires Entries(xs) == Entries(ys)
    ensures Rebuild(xs) == Rebuild(ys)
  {
  }

  lemma RunsOfRebuild(xs: seq<Run>)
    ensures Rebuild(xs).runs == Entries(xs)
  {
  }

  // ----- merging logs

  /** How a log came about: from observations of one writer, or by merging two earlier logs. */
  datatype History = Recorded(runs: seq<Run>) | Merged(left: History, right: History)

  function Result(h: History): Health {
    match h
    case Recorded(runs) => Rebuild(runs)
    case Merged(left, right) => Merge(Result(left), Result(right))
  }

  function Inputs(h: History): seq<Run> {
    match h
    case Recorded(runs) => runs
    case Merged(left, right) => Inputs(left) + Inputs(right)
  }

  lemma AgreeParts(xs: seq<Run>, ys: seq<Run>)
    requires Agree(xs + ys)
    ensures Agree(xs) && Agree(ys) && Agree(ys + xs)
  {
    CanonSetUnion(xs, ys);
    CanonSetUnion(ys, xs);
    hide CanonSet;
  }

  lemma AgreeEntries(xs: seq<Run>, ys: seq<Run>)
    requires Agree(xs + ys)
    ensures Agree(xs + Rebuild(ys).runs)
  {
    AgreeParts(xs, ys);
    CanonSetUnion(xs, ys);
    CanonSetUnion(xs, Entries(ys));
    EntriesAreCanon(ys);
    EntriesAreNewest(ys);
    EntriesWithin(ys);
    RunsOfRebuild(ys);
    hide *;
    AgreeWithin(xs + Entries(ys), xs + ys);
  }

  lemma EntriesWithin(ys: seq<Run>)
    requires Agree(ys)
    ensures Elements(Entries(ys)) <= CanonSet(ys)
  {
    EntriesAreNewest(ys);
    hide CanonSet, Entries;
  }

  lemma AgreeWithin(us: seq<Run>, vs: seq<Run>)
    requires CanonSet(us) <= CanonSet(vs) && Agree(vs)
    ensures Agree(us)
  {
    hide CanonSet;
  }

  lemma Swap(xs: seq<Run>, ys: seq<Run>)
    requires Agree(xs + ys)
    ensures Rebuild(xs + ys) == Rebuild(ys + xs)
  {
    CanonSetUnion(xs, ys);
    CanonSetUnion(ys, xs);
    hide CanonSet, Rebuild;
    RebuildBySet(xs + ys, ys + xs);
  }

  /** Merging the logs of two piles is rebuilding the two piles together. */
  lemma MergeRebuilds(xs: seq<Run>, ys: seq<Run>)
    requires Agree(xs + ys)
    ensures Merge(Rebuild(xs), Rebuild(ys)) == Rebuild(xs + ys)
  {
    hide Rebuild, Agree;
    var u := Rebuild(ys).runs;
    AgreeEntries(xs, ys);
    AgreeParts(xs, ys);
    RebuildAbsorbs(xs, u);
    Swap(xs, u);
    RebuildAbsorbs(ys, xs);
    Swap(xs, ys);
  }

  /** MAIN RESULT. If no two different entries share an instant, any merging of any logs, in any
      order, grouping and repetition, gives the log of all observations together: the merge is
      commutative, associative and idempotent on rebuilt logs. */
  lemma {:induction false} MergeIsJoin(h: History)
    requires Agree(Inputs(h))
    ensures Result(h) == Rebuild(Inputs(h))
  {
    match h
    case Recorded(runs) =>
    case Merged(left, right) =>
      AgreeParts(Inputs(left), Inputs(right));
      MergeIsJoin(left);
      MergeIsJoin(right);
      MergeRebuilds(Inputs(left), Inputs(right));
  }

  lemma MergeCommutes(x: History, y: History)
    requires Agree(Inputs(x) + Inputs(y))
    ensures Merge(Result(x), Result(y)) == Merge(Result(y), Result(x))
  {
    hide Agree, Rebuild, Merge;
    AgreeParts(Inputs(x), Inputs(y));
    MergeIsJoin(Merged(x, y));
    MergeIsJoin(Merged(y, x));
    Swap(Inputs(x), Inputs(y));
  }

  lemma MergeAssociates(x: History, y: History, z: History)
    requires Agree(Inputs(x) + Inputs(y) + Inputs(z))
    ensures Merge(Merge(Result(x), Result(y)), Result(z)) == Merge(Result(x), Merge(Result(y), Result(z)))
  {
    hide Agree, Rebuild, Merge;
    var a, b, c := Inputs(x), Inputs(y), Inputs(z);
    assert a + b + c == a + (b + c);
    MergeIsJoin(Merged(Merged(x, y), z));
    MergeIsJoin(Merged(x, Merged(y, z)));
  }

  lemma MergeIdempotent(x: History)
    requires Agree(Inputs(x))
    ensures Merge(Result(x), Result(x)) == Result(x)
  {
    var a := Inputs(x);
    CanonSetUnion(a, a);
    hide CanonSet, Rebuild, Merge;
    MergeIsJoin(x);
    MergeIsJoin(Merged(x, x));
    RebuildBySet(a + a, a);
  }

  // ----- the condition is exact

  lemma OneEntry(r: Run)
    ensures Entries([r]) == [Canon(r)]
  {
    SortOne(r);
    CollectOne(r, r.ts - WINDOW, {});
    assert Latest([r]) == r.ts;
  }

  lemma SortOne(r: Run)
    ensures Sort([r], (a, b) => ByTime(a, b)) == [r]
  {
    assert [r][1..] == [];
  }

  lemma CollectOne(r: Run, cutoff: int, seen: set<Key>)
    ensures Collect([r], cutoff, seen) == if Due(Canon(r), cutoff, seen) then [Canon(r)] else []
  {
    assert [r][1..] == [];
    assert [Canon(r)] + Collect([r][1..], cutoff, seen + {KeyOf(Canon(r))}) == [Canon(r)];
  }

  /** Two single observations can be merged in either order exactly when they do not share an instant
      with different entries. */
  lemma TwoCommuteExactly(a: Run, b: Run)
    ensures Merge(Rebuild([a]), Rebuild([b])) == Merge(Rebuild([b]), Rebuild([a]))
      <==> (a.ts == b.ts ==> Canon(a) == Canon(b))
  {
    var x, y := Canon(a), Canon(b);
    OneEntry(a);
    OneEntry(b);
    CanonTwice(a);
    CanonTwice(b);
    assert [x] + [y] == [x, y] && [y] + [x] == [y, x];
    if a.ts == b.ts && x != y {
      FirstOfTwo(x, y);
      FirstOfTwo(y, x);
    } else {
      Swap([x], [y]);
    }
  }

  /** Of two entries at one instant the first to arrive comes first, or is the only one kept. */
  lemma FirstOfTwo(x: Run, y: Run)
    requires x.ts == y.ts && Canon(x) == x && Canon(y) == y
    ensures Entries([x, y]) != [] && Entries([x, y])[0] == x
  {
    assert [x, y][1..] == [y];
    SortOne(y);
    assert Sort([x, y], (a, b) => ByTime(a, b)) == [x, y];
    assert [y][1..] == [];
    assert Latest([y]) == y.ts;
    assert Latest([x, y]) == x.ts;
    var cutoff := x.ts - WINDOW;
    CollectOne(y, cutoff, {KeyOf(x)});
    assert {} + {KeyOf(x)} == {KeyOf(x)};
    assert Collect([x, y], cutoff, {}) == [x] + Collect([y], cutoff, {KeyOf(x)});
  }

  // ----- the rebuild as it is written

  lemma {:induction false} OneMore(runs: seq<Run>, r: Run, s: string, m: Metric)
    ensures Count(runs + [r], s) == Count(runs, s) + if r.status == s then 1 else 0
    ensures Total(runs + [r], m) == Total(runs, m) + Value(r, m)
    ensures Timed(runs + [r]) == Timed(runs) + if Duration in r.metrics then 1 else 0
    ensures Longest(runs + [r]) == if Value(r, Duration) > Longest(runs) then Value(r, Duration) else Longest(runs)
  {
    if runs == [] {
      assert runs + [r] == [r] && [r][1..] == [];
    } else {
      assert (runs + [r])[1..] == runs[1..] + [r];
      OneMore(runs[1..], r, s, m);
    }
  }

  lemma OneMoreLast(runs: seq<Run>, r: Run)
    ensures LastSuccess(runs + [r]) == if r.status == "success" then Some(r.ts) else LastSuccess(runs)
    ensures LastError(runs + [r]) == if Failing(r) then Some((r.error.value, r.ts)) else LastError(runs)
  {
    assert (runs + [r])[..|runs|] == runs;
  }

  /** The collecting loop of `_rebuild_source_health`. */
  method CollectEntries(runs: seq<Run>) returns (ordered: seq<Run>)
    ensures ordered == Entries(runs)
  {
    if runs == [] {
      return [];
    }
    var cutoff := runs[0].ts;
    for i := 0 to |runs|
      invariant i > 0 ==> cutoff == Latest(runs[..i])
    {
      assert runs[..i + 1] == runs[..i] + [runs[i]];
      LatestLast(runs[..i], runs[i]);
      if i == 0 || runs[i].ts > cutoff {
        cutoff := runs[i].ts;
      }
    }
    assert runs[..|runs|] == runs;
    cutoff := cutoff - WINDOW;
    var sorted := Sort(runs, (a, b) => ByTime(a, b));
    var seen: set<Key> := {};
    ordered := [];
    for i := 0 to |sorted|
      invariant ordered + Collect(sorted[i..], cutoff, seen) == Collect(sorted, cutoff, {})
    {
      var entry := Canon(sorted[i]);
      assert sorted[i..][0] == sorted[i] && sorted[i..][1..] == sorted[i + 1..];
      if entry.ts >= cutoff && KeyOf(entry) !in seen {
        assert ordered + ([entry] + Collect(sorted[i + 1..], cutoff, seen + {KeyOf(entry)}))
            == ordered + [entry] + Collect(sorted[i + 1..], cutoff, seen + {KeyOf(entry)});
        seen := seen + {KeyOf(entry)};
        ordered := ordered + [entry];
      }
    }
    ordered := LastOnes(ordered, MAX_RUNS);
  }

  lemma {:induction false} LatestLast(runs: seq<Run>, r: Run)
    ensures Latest(runs + [r]) == if runs == [] || r.ts > Latest(runs) then r.ts else Latest(runs)
  {
    if runs == [] {
      assert runs + [r] == [r];
    } else {
      assert (runs + [r])[1..] == runs[1..] + [r];
      LatestLast(runs[1..], r);
    }
  }

  predicate CountsOf(counts: map<string, nat>, runs: seq<Run>) {
    counts == map s | s in STATUSES :: Count(runs, s)
  }

  predicate TotalsOf(totals: map<Metric, int>, runs: seq<Run>) {
    totals == map m | m in METRICS :: Total(runs, m)
  }

  lemma NextCounts(counts: map<string, nat>, runs: seq<Run>, r: Run, known: seq<string>)
    requires counts == map s | s in known :: Count(runs, s)
    ensures (map s | s in known :: counts[s] + if r.status == s then 1 else 0) == map s | s in known :: Count(runs + [r], s)
  {
    forall s { OneMore(runs, r, s, Duration); }
    hide Count;
  }

  lemma NextTotals(totals: map<Metric, int>, runs: seq<Run>, r: Run, known: seq<Metric>)
    requires totals == map m | m in known :: Total(runs, m)
    ensures (map m | m in known :: totals[m] + Value(r, m)) == map m | m in known :: Total(runs + [r], m)
  {
    forall m { OneMore(runs, r, "", m); }
    hide Total, Value;
  }

  /** The counting loop of `_rebuild_source_health`. */
  method CountEntries(ordered: seq<Run>) returns (counts: map<string, nat>, totals: map<Metric, int>, longest: int, timed: nat)
    ensures CountsOf(counts, ordered) && TotalsOf(totals, ordered)
    ensures longest == Longest(ordered) && timed == Timed(ordered)
  {
    counts := map s | s in STATUSES :: 0;
    totals := map m | m in METRICS :: 0;
    longest, timed := 0, 0;
    hide CountsOf, TotalsOf;
    NoCounts(counts, totals);
    for i := 0 to |ordered|
      invariant CountsOf(counts, ordered[..i]) && TotalsOf(totals, ordered[..i])
      invariant longest == Longest(ordered[..i]) && timed == Timed(ordered[..i])
    {
      var entry := ordered[i];
      assert ordered[..i + 1] == ordered[..i] + [entry];
      CountKeys(counts, totals, ordered[..i]);
      Counted(counts, totals, ordered[..i], entry);
      OneMore(ordered[..i], entry, "", Duration);
      counts := map s | s in STATUSES :: counts[s] + if entry.status == s then 1 else 0;
      totals := map m | m in METRICS :: totals[m] + Value(entry, m);
      if Duration in entry.metrics {
        timed := timed + 1;
      }
      if Value(entry, Duration) > longest {
        longest := Value(entry, Duration);
      }
    }
    assert ordered[..|ordered|] == ordered;
  }

  lemma Counted(counts: map<string, nat>, totals: map<Metric, int>, runs: seq<Run>, r: Run)
    requires CountsOf(counts, runs) && TotalsOf(totals, runs)
    ensures CountsOf(map s | s in STATUSES :: counts[s] + if r.status == s then 1 else 0, runs + [r])
    ensures TotalsOf(map m | m in METRICS :: totals[m] + Value(r, m), runs + [r])
  {
    hide Count, Total, Value;
    NextCounts(counts, runs, r, STATUSES);
    NextTotals(totals, runs, r, METRICS);
  }

  lemma NoCounts(counts: map<string, nat>, totals: map<Metric, int>)
    requires counts == map s | s in STATUSES :: 0
    requires totals == map m | m in METRICS :: 0
    ensures CountsOf(counts, []) && TotalsOf(totals, [])
  {
  }

  lemma CountKeys(counts: map<string, nat>, totals: map<Metric, int>, runs: seq<Run>)
    requires CountsOf(counts, runs) && TotalsOf(totals, runs)
    ensures forall s | s in STATUSES :: s in counts
    ensures forall m | m in METRICS :: m in totals
  {
  }

  /** `_rebuild_source_health`: every counter is accumulated entry by entry, and ends as the count,
      the sum, the maximum or the last one over all retained entries. */
  method RebuildSourceHealth(runs: seq<Run>) returns (h: Health)
    ensures h == Rebuild(runs)
  {
    var ordered := CollectEntries(runs);
    hide Entries;
    var counts, totals, longest, timed := CountEntries(ordered);
    var lastSuccess: Option<int>, lastError: Option<(string, int)> := None, None;
    for i := 0 to |ordered|
      invariant lastSuccess == LastSuccess(ordered[..i]) && lastError == LastError(ordered[..i])
    {
      var entry := ordered[i];
      assert ordered[..i + 1] == ordered[..i] + [entry];
      OneMoreLast(ordered[..i], entry);
      if entry.status == "success" {
        lastSuccess := Some(entry.ts);
      } else if Failing(entry) {
        lastError := Some((entry.error.value, entry.ts));
      }
    }
    assert ordered[..|ordered|] == ordered;
    hide Count, Total, Timed, Longest, LastSuccess, LastError;
    h := Health(counts, totals, longest, if timed == 0 then None else Some(RoundedQuotient(totals[Duration], timed)),
                lastSuccess, lastError, ordered);
  }
}
