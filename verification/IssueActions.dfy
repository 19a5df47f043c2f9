/** Which actions a plan holds, one by one, and exactly which issues a pass leaves open. */
module IssueActions {
  import opened Common
  import opened Ordered
  import opened IssuePlans

  /** What may be wrong with the issue of a failing key: a wanted label is missing, another label of the family is on
      it, or its text differs. */
  predicate Differs(issue: Issue, wanted: Wanted, family: set<string>) {
    || (exists l | l in wanted.labels :: l !in issue.labels)
    || (exists l | l in issue.labels :: l in family && l !in wanted.labels)
    || issue.body != wanted.body
  }

  lemma CurrentExactly(issue: Issue, wanted: Wanted, family: set<string>)
    ensures Current(issue, wanted, family) <==> !Differs(issue, wanted, family)
    ensures forall l :: l in Stale(issue, wanted, family) <==> l in issue.labels && l in family && l !in wanted.labels
  {
    var stale := Stale(issue, wanted, family);
    forall l ensures l in stale <==> l in issue.labels && l in family && l !in wanted.labels {
    }
    if !Differs(issue, wanted, family) {
      forall l | l in wanted.labels ensures l in issue.labels {
      }
      assert wanted.labels <= issue.labels && stale == {};
    }
  }

  /** What an action is good for. */
  ghost predicate Called(failing: Failing, closing: set<Key>, open: Issues, family: set<string>, a: Action) {
    match a
    case Create(k, labels, body) => k in failing && k !in open && labels == failing[k].labels && body == failing[k].body
    case Update(k, n, labels, body, stale) =>
      && k in failing && k in open && Differs(open[k], failing[k], family)
      && n == open[k].number && labels == failing[k].labels && body == failing[k].body
      && forall l :: l in stale <==> l in open[k].labels && l in family && l !in failing[k].labels
    case Close(k, n) => k in closing && k in open && n == open[k].number
  }

  lemma {:induction false} CreatesExactly(failing: Failing, keys: seq<Key>, a: Action)
    requires forall k | k in keys :: k in failing
    ensures a in Creates(failing, keys) <==>
      a.Create? && a.key in keys && a.labels == failing[a.key].labels && a.body == failing[a.key].body
  {
    if keys != [] {
      assert keys == [keys[0]] + keys[1..];
      CreatesExactly(failing, keys[1..], a);
    }
  }

  lemma {:induction false} ClosesExactly(open: Issues, keys: seq<Key>, a: Action)
    requires forall k | k in keys :: k in open
    ensures a in Closes(open, keys) <==> a.Close? && a.key in keys && a.number == open[a.key].number
  {
    if keys != [] {
      assert keys == [keys[0]] + keys[1..];
      ClosesExactly(open, keys[1..], a);
    }
  }

  lemma {:induction false} UpdatesExactly(failing: Failing, open: Issues, family: set<string>, keys: seq<Key>, a: Action)
    requires forall k | k in keys :: k in failing && k in open
    ensures a in Updates(failing, open, family, keys) <==>
      a.Update? && a.key in keys && Differs(open[a.key], failing[a.key], family)
      && a.number == open[a.key].number && a.labels == failing[a.key].labels && a.body == failing[a.key].body
      && a.stale == Stale(open[a.key], failing[a.key], family)
  {
    if keys != [] {
      var k := keys[0];
      assert k in keys;
      assert keys == [k] + keys[1..];
      UpdatesExactly(failing, open, family, keys[1..], a);
      CurrentExactly(open[k], failing[k], family);
      hide Differs, Stale, Current;
    }
  }

  /** MAIN RESULT. A plan holds exactly the actions that are called for: a creation for each failing key without an issue,
      an update for each one whose issue differs from what is wanted, a closing for each key that may be closed,
      each naming the number of the issue it means. */
  lemma PlanExactly(failing: Failing, closing: set<Key>, open: Issues, family: set<string>, a: Action)
    ensures a in Plan(failing, closing, open, family) <==> Called(failing, closing, open, family, a)
  {
    PlanParts(failing, closing, open, family);
    Listed(failing.Keys - open.Keys);
    Listed(failing.Keys * open.Keys);
    Listed(closing * open.Keys);
    var p, q, r := Ascending(failing.Keys - open.Keys), Ascending(failing.Keys * open.Keys), Ascending(closing * open.Keys);
    CreatesExactly(failing, p, a);
    UpdatesExactly(failing, open, family, q, a);
    ClosesExactly(open, r, a);
    assert a.key in p <==> a.key in failing.Keys - open.Keys;
    assert a.key in q <==> a.key in failing.Keys * open.Keys;
    assert a.key in r <==> a.key in closing * open.Keys;
    if a.Update? && a.key in failing && a.key in open {
      CurrentExactly(open[a.key], failing[a.key], family);
      SameStale(a.stale, open[a.key], failing[a.key], family);
    }
    hide Plan, Creates, Updates, Closes, Ascending, Differs, Stale, Increasing, NoRepeats;
  }

  lemma SameStale(stale: set<string>, issue: Issue, wanted: Wanted, family: set<string>)
    ensures stale == Stale(issue, wanted, family)
       <==> forall l :: l in stale <==> l in issue.labels && l in family && l !in wanted.labels
  {
    CurrentExactly(issue, wanted, family);
    hide Stale;
    if forall l :: l in stale <==> l in issue.labels && l in family && l !in wanted.labels {
      assert forall l :: l in stale <==> l in Stale(issue, wanted, family);
    }
  }

  /** What is left of an issue that stays: number and foreign labels as they were, the wanted labels and text. */
  lemma KeptExactly(failing: Failing, closing: set<Key>, open: Issues, family: set<string>, number: Key -> int, k: Key)
    requires closing !! failing.Keys && k in failing
    ensures var after := ApplyAll(open, Plan(failing, closing, open, family), number);
      && k in after && after[k].body == failing[k].body
      && after[k].number == (if k in open then open[k].number else number(k))
      && forall l :: l in after[k].labels <==>
           l in failing[k].labels || (k in open && l in open[k].labels && l !in family)
  {
    var one, two := PlanApplied(failing, closing, open, family, number);
    if k in open {
      UpdatedLabels(open[k], failing[k], family);
    }
    hide Plan, ApplyAll, Updated;
  }

  lemma UpdatedLabels(issue: Issue, wanted: Wanted, family: set<string>)
    ensures var u := Updated(issue, wanted, family);
      && u.number == issue.number && u.body == wanted.body
      && forall l :: l in u.labels <==> l in wanted.labels || (l in issue.labels && l !in family)
  {
    CurrentExactly(issue, wanted, family);
  }

  /** MAIN RESULT. After a pass of the sentinel an issue is gone exactly when its source is not failing and its recovery was
      observed: it is not paused, no row of it leaves the recovery open, and, for the liveness issue, there was a
      history to judge by. */
  lemma ClosedExactly(report: HealthReport, open: Issues, liveness: Key, causes: set<string>, number: Key -> int, k: Key)
    requires k in open
    ensures var unresolved := Unresolved(report, liveness);
            var after := ApplyAll(open, Plan(report.failing, open.Keys - report.failing.Keys - unresolved, open, causes), number);
      k !in after <==>
        && k !in report.failing && k !in report.paused && Observed(k, true) !in report.observed
        && (k == liveness ==> report.historyAvailable)
  {
    UnresolvedExactly(report, liveness, k);
    PlanSettles(report.failing, open.Keys - report.failing.Keys - Unresolved(report, liveness), open, causes, number);
    hide Plan, ApplyAll, Current, Unresolved;
  }

  lemma UnresolvedExactly(report: HealthReport, liveness: Key, k: Key)
    ensures k in Unresolved(report, liveness) <==>
      k in report.paused || Observed(k, true) in report.observed || (k == liveness && !report.historyAvailable)
  {
    if Observed(k, true) in report.observed {
      var i :| 0 <= i < |report.observed| && report.observed[i] == Observed(k, true);
      assert report.observed[i].source in Unresolved(report, liveness);
    }
    if i :| 0 <= i < |report.observed| && report.observed[i].unknown && report.observed[i].source == k {
      assert report.observed[i] == Observed(k, true);
    }
  }
}
