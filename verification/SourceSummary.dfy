/** What the figures of a source's health log mean, told from its entries. */
module SourceSummary {
  import opened Common
  import opened SourceHealth

  /** The kept entry of an observation: partial failures are degraded, and whatever is no known status has failed;
      metrics that are not positive are left out, everything else stays. */
  lemma CanonMeans(r: Run)
    ensures var c := Canon(r);
      && (c.status == "success" <==> r.status == "success")
      && (c.status == "degraded" <==> r.status == "degraded" || r.status == "partial_failure")
      && (c.status == "skipped" <==> r.status == "skipped")
      && (c.status == "failed" <==> r.status !in ["success", "degraded", "partial_failure", "skipped"])
      && c.ts == r.ts && c.error == r.error && c.errorClass == r.errorClass
      && (forall m :: m in c.metrics <==> m in r.metrics && r.metrics[m] > 0)
      && (forall m | m in c.metrics :: c.metrics[m] == r.metrics[m])
  {
  }

  function With(runs: seq<Run>, status: string): set<int> { set i | 0 <= i < |runs| && runs[i].status == status }

  function WithDuration(runs: seq<Run>): set<int> { set i | 0 <= i < |runs| && Duration in runs[i].metrics }

  lemma {:induction false} CountIsSize(runs: seq<Run>, status: string)
    ensures Count(runs, status) == |With(runs, status)|
    decreases |runs|
  {
    if runs == [] {
      assert With(runs, status) == {};
    } else {
      var n := |runs| - 1;
      assert runs == runs[..n] + [runs[n]];
      OneMore(runs[..n], runs[n], status, Duration);
      hide Count;
      WithLast(runs, status);
      CountIsSize(runs[..n], status);
    }
  }

  /** A set of positions that one more position joins, or not. */
  lemma OneMoreIn(before: set<int>, after: set<int>, n: int, joins: bool)
    requires n !in before
    requires forall i :: i in after <==> i in before || (i == n && joins)
    ensures |after| == |before| + if joins then 1 else 0
  {
    var now := if joins then before + {n} else before;
    forall i ensures i in after <==> i in now {
    }
    assert after == now;
  }

  lemma WithLast(runs: seq<Run>, status: string)
    requires runs != []
    ensures var n := |runs| - 1;
      && |With(runs, status)| == |With(runs[..n], status)| + (if runs[n].status == status then 1 else 0)
      && |WithDuration(runs)| == |WithDuration(runs[..n])| + if Duration in runs[n].metrics then 1 else 0
  {
    var n := |runs| - 1;
    assert forall i | 0 <= i < n :: runs[..n][i] == runs[i];
    OneMoreIn(With(runs[..n], status), With(runs, status), n, runs[n].status == status);
    OneMoreIn(WithDuration(runs[..n]), WithDuration(runs), n, Duration in runs[n].metrics);
  }

  lemma {:induction false} TimedIsSize(runs: seq<Run>)
    ensures Timed(runs) == |WithDuration(runs)|
    decreases |runs|
  {
    if runs == [] {
      assert WithDuration(runs) == {};
    } else {
      var n := |runs| - 1;
      assert runs == runs[..n] + [runs[n]];
      OneMore(runs[..n], runs[n], "", Duration);
      hide Timed;
      WithLast(runs, "");
      TimedIsSize(runs[..n]);
    }
  }

  /** `total` adds up a metric over the entries: nothing over none, and with one more entry its value more. */
  ghost predicate AddsUp(total: seq<Run> -> int, m: Metric) {
    && total([]) == 0
    && forall runs, r :: total(runs + [r]) == total(runs) + if m in r.metrics then r.metrics[m] else 0
  }

  lemma TotalAddsUp(m: Metric)
    ensures AddsUp(runs => Total(runs, m), m)
  {
    forall runs, r ensures Total(runs + [r], m) == Total(runs, m) + if m in r.metrics then r.metrics[m] else 0 {
      OneMore(runs, r, "", m);
    }
  }

  lemma {:induction false} LongestIsGreatest(runs: seq<Run>)
    ensures Longest(runs) >= 0
    ensures forall r | r in runs && Duration in r.metrics :: r.metrics[Duration] <= Longest(runs)
    ensures Longest(runs) == 0 || exists r | r in runs :: Duration in r.metrics && r.metrics[Duration] == Longest(runs)
  {
    if runs != [] {
      assert runs == [runs[0]] + runs[1..];
      LongestIsGreatest(runs[1..]);
    }
  }

  /** Rounded to the nearest, and to the even one of two that are as near. */
  lemma RoundsToNearest(a: int, n: nat)
    requires n > 0
    ensures var q := RoundedQuotient(a, n);
      var rest := 2 * (a - q * n);
      0 - n <= rest <= n && (rest == n || rest == 0 - n ==> q % 2 == 0)
  {
    var q, r := a / n, a % n;
    assert a == q * n + r;
    assert (q + 1) * n == q * n + n;
  }

  ghost predicate SucceedsLast(runs: seq<Run>, i: nat) {
    i < |runs| && runs[i].status == "success" && forall j | i < j < |runs| :: runs[j].status != "success"
  }

  lemma {:induction false} LastSuccessIsLast(runs: seq<Run>)
    ensures match LastSuccess(runs)
            case None => forall r | r in runs :: r.status != "success"
            case Some(t) => exists i: nat :: SucceedsLast(runs, i) && runs[i].ts == t
    decreases |runs|
  {
    if runs != [] {
      var n := |runs| - 1;
      assert runs == runs[..n] + [runs[n]];
      if runs[n].status == "success" {
        assert SucceedsLast(runs, n);
      } else {
        LastSuccessIsLast(runs[..n]);
        if LastSuccess(runs).Some? {
          var i: nat :| SucceedsLast(runs[..n], i) && runs[..n][i].ts == LastSuccess(runs).value;
          assert SucceedsLast(runs, i);
        }
      }
    }
  }

  predicate Complains(r: Run) { (r.status == "degraded" || r.status == "failed") && r.error != None }

  ghost predicate ComplainsLast(runs: seq<Run>, i: nat) {
    i < |runs| && Complains(runs[i]) && forall j | i < j < |runs| :: !Complains(runs[j])
  }

  lemma {:induction false} LastErrorIsLast(runs: seq<Run>)
    ensures match LastError(runs)
            case None => forall r | r in runs :: !Complains(r)
            case Some(e) => exists i: nat :: ComplainsLast(runs, i) && runs[i].ts == e.1 && runs[i].error == Some(e.0)
    decreases |runs|
  {
    if runs != [] {
      var n := |runs| - 1;
      assert runs == runs[..n] + [runs[n]];
      if Complains(runs[n]) {
        assert ComplainsLast(runs, n);
      } else {
        LastErrorIsLast(runs[..n]);
        if LastError(runs).Some? {
          var e := LastError(runs).value;
          var i: nat :| ComplainsLast(runs[..n], i) && runs[..n][i].ts == e.1 && runs[..n][i].error == Some(e.0);
          assert ComplainsLast(runs, i);
        }
      }
    }
  }

  lemma AllMetrics(m: Metric)
    ensures m in METRICS
  {
    assert METRICS[0] == Duration && METRICS[1] == Observed && METRICS[2] == Promoted && METRICS[3] == TriagedIn;
    assert METRICS[4] == TriagedOut && METRICS[5] == WriterAttempted && METRICS[6] == Drafted;
    match m
    case _ =>
  }

  /** MAIN RESULT. The figures of a rebuilt log, all told from its entries: how many of each status, what the metrics
      add up to, the longest duration, the average of those that have one rounded to the nearest, the time of
      the last success, and the last error of an entry that is degraded or failed. */
  lemma FiguresMean(runs: seq<Run>)
    ensures var h := Rebuild(runs);
      && h.runs == Entries(runs)
      && h.counts == (map s | s in ["success", "degraded", "failed", "skipped"] :: |With(h.runs, s)|)
      && (forall m :: m in h.totals && h.totals[m] == Total(h.runs, m))
      && h.longest == Longest(h.runs)
      && (h.average.None? <==> WithDuration(h.runs) == {})
      && (h.average.Some? ==>
            var rest := 2 * (h.totals[Duration] - h.average.value * |WithDuration(h.runs)|);
            && 0 - |WithDuration(h.runs)| <= rest <= |WithDuration(h.runs)|
            && (rest == |WithDuration(h.runs)| || rest == 0 - |WithDuration(h.runs)| ==> h.average.value % 2 == 0))
      && h.lastSuccess == LastSuccess(h.runs) && h.lastError == LastError(h.runs)
  {
    var e := Entries(runs);
    TimedIsSize(e);
    forall s ensures Count(e, s) == |With(e, s)| {
      CountIsSize(e, s);
    }
    forall m: Metric ensures m in METRICS {
      AllMetrics(m);
    }
    if Timed(e) > 0 {
      RoundsToNearest(Total(e, Duration), Timed(e));
    }
    hide Entries, Count, Total, Timed, Longest, LastSuccess, LastError, RoundedQuotient;
  }
}
