/** Issue reconciliation: what the planners decide from the failing set and the open issues, and where applying a
    plan leads. Keys stand for source and workflow names in their sort order. */
module IssuePlans {
  import opened Common
  import opened Ordered

  /** An open issue. */
  datatype Issue = Issue(number: int, body: string, labels: set<string>)

  /** What a failing verdict asks of its issue: the labels and the text. */
  datatype Wanted = Wanted(labels: set<string>, body: string)

  datatype Action =
    | Create(key: Key, labels: set<string>, body: string)
    | Update(key: Key, number: int, labels: set<string>, body: string, stale: set<string>)
    | Close(key: Key, number: int)

  type Issues = map<Key, Issue>
  type Failing = map<Key, Wanted>

  /** The labels of a family that an issue carries but is not to carry. */
  function Stale(issue: Issue, wanted: Wanted, family: set<string>): set<string> {
    (issue.labels * family) - wanted.labels
  }

  predicate Current(issue: Issue, wanted: Wanted, family: set<string>) {
    wanted.labels <= issue.labels && Stale(issue, wanted, family) == {} && issue.body == wanted.body
  }

  // ----- the plan

  function Creates(failing: Failing, keys: seq<Key>): (actions: seq<Action>)
    requires forall k | k in keys :: k in failing
    ensures forall a | a in actions :: a.Create?
  {
    if keys == [] then []
    else
      var k := keys[0];
      [Create(k, failing[k].labels, failing[k].body)] + Creates(failing, keys[1..])
  }

  function Updates(failing: Failing, open: Issues, family: set<string>, keys: seq<Key>): (actions: seq<Action>)
    requires forall k | k in keys :: k in failing && k in open
    ensures forall a | a in actions :: a.Update?
  {
    if keys == [] then []
    else
      var k := keys[0];
      var rest := Updates(failing, open, family, keys[1..]);
      if Current(open[k], failing[k], family) then rest
      else
        [Update(k, open[k].number, failing[k].labels, failing[k].body, Stale(open[k], failing[k], family))] + rest
  }

  function Closes(open: Issues, keys: seq<Key>): (actions: seq<Action>)
    requires forall k | k in keys :: k in open
    ensures forall a | a in actions :: a.Close?
  {
    if keys == [] then []
    else
      var k := keys[0];
      [Close(k, open[k].number)] + Closes(open, keys[1..])
  }

  /** Create, update, close, each in key order. `closing` are the keys that may be closed. */
  function Plan(failing: Failing, closing: set<Key>, open: Issues, family: set<string>): seq<Action> {
    AscendingSorts(failing.Keys - open.Keys);
    AscendingSorts(failing.Keys * open.Keys);
    AscendingSorts(closing * open.Keys);
    Creates(failing, Ascending(failing.Keys - open.Keys))
    + Updates(failing, open, family, Ascending(failing.Keys * open.Keys))
    + Closes(open, Ascending(closing * open.Keys))
  }

  // ----- the planners

  /** `plan_issue_actions` of the source sentinel: every open issue that is neither failing nor unresolved is closed. */
  method PlanIssueActions(failing: Failing, open: Issues, unresolved: set<Key>, causes: set<string>)
    returns (actions: seq<Action>)
    ensures actions == Plan(failing, open.Keys - failing.Keys - unresolved, open, causes)
  {
    assert (open.Keys - failing.Keys - unresolved) * open.Keys == open.Keys - failing.Keys - unresolved;
    actions := PlanKeys(failing, open, causes, open.Keys - failing.Keys - unresolved);
  }

  /** `plan_workflow_issue_actions`: only what was observed recovered is closed, and no label is ever removed. */
  method PlanWorkflowActions(failing: Failing, recovered: set<Key>, open: Issues) returns (actions: seq<Action>)
    ensures actions == Plan(failing, recovered, open, {})
  {
    actions := PlanKeys(failing, open, {}, recovered * open.Keys);
    assert recovered * open.Keys * open.Keys == recovered * open.Keys;
  }

  /** The three loops that both planners make. */
  method PlanKeys(failing: Failing, open: Issues, family: set<string>, closing: set<Key>) returns (actions: seq<Action>)
    requires closing <= open.Keys
    ensures actions == Plan(failing, closing, open, family)
  {
    AscendingSorts(failing.Keys - open.Keys);
    AscendingSorts(failing.Keys * open.Keys);
    AscendingSorts(closing);
    assert closing * open.Keys == closing;
    hide Ascending, Increasing;
    actions := PlanCreates(failing, Ascending(failing.Keys - open.Keys));
    var updates := PlanUpdates(failing, open, family, Ascending(failing.Keys * open.Keys));
    var closes := PlanCloses(open, Ascending(closing));
    actions := actions + updates + closes;
  }

  method PlanCreates(failing: Failing, keys: seq<Key>) returns (actions: seq<Action>)
    requires forall k | k in keys :: k in failing
    ensures actions == Creates(failing, keys)
  {
    actions := [];
    for i := 0 to |keys|
      invariant forall k | k in keys[i..] :: k in failing
      invariant actions + Creates(failing, keys[i..]) == Creates(failing, keys)
    {
      var k := keys[i];
      assert keys[i..][0] == k && keys[i..][1..] == keys[i + 1..];
      assert k in keys[i..] && forall x | x in keys[i + 1..] :: x in keys[i..];
      actions := actions + [Create(k, failing[k].labels, failing[k].body)];
    }
  }

  method PlanUpdates(failing: Failing, open: Issues, family: set<string>, keys: seq<Key>) returns (actions: seq<Action>)
    requires forall k | k in keys :: k in failing && k in open
    ensures actions == Updates(failing, open, family, keys)
  {
    actions := [];
    for i := 0 to |keys|
      invariant forall k | k in keys[i..] :: k in failing && k in open
      invariant actions + Updates(failing, open, family, keys[i..]) == Updates(failing, open, family, keys)
    {
      var k := keys[i];
      assert keys[i..][0] == k && keys[i..][1..] == keys[i + 1..];
      assert k in keys[i..] && forall x | x in keys[i + 1..] :: x in keys[i..];
      var issue, wanted := open[k], failing[k];
      var stale := (issue.labels * family) - wanted.labels;
      var labelsCurrent := wanted.labels <= issue.labels && stale == {};
      if labelsCurrent && issue.body == wanted.body {
        continue;
      }
      actions := actions + [Update(k, issue.number, wanted.labels, wanted.body, stale)];
    }
  }

  method PlanCloses(open: Issues, keys: seq<Key>) returns (actions: seq<Action>)
    requires forall k | k in keys :: k in open
    ensures actions == Closes(open, keys)
  {
    actions := [];
    for i := 0 to |keys|
      invariant forall k | k in keys[i..] :: k in open
      invariant actions + Closes(open, keys[i..]) == Closes(open, keys)
    {
      var k := keys[i];
      assert keys[i..][0] == k && keys[i..][1..] == keys[i + 1..];
      assert k in keys[i..] && forall x | x in keys[i + 1..] :: x in keys[i..];
      actions := actions + [Close(k, open[k].number)];
    }
  }

  // ----- applying a plan

  /** `number` is the number a new issue gets. */
  function Apply(open: Issues, a: Action, number: Key -> int): Issues {
    match a
    case Create(k, labels, body) => open[k := Issue(number(k), body, labels)]
    case Update(k, n, labels, body, stale) =>
      if k in open then open[k := Issue(open[k].number, body, (open[k].labels + labels) - stale)] else open
    case Close(k, n) => open - {k}
  }

  function ApplyAll(open: Issues, actions: seq<Action>, number: Key -> int): Issues
    decreases |actions|
  {
    if actions == [] then open else ApplyAll(Apply(open, actions[0], number), actions[1..], number)
  }

  lemma {:induction false} ApplyChains(open: Issues, a: seq<Action>, b: seq<Action>, number: Key -> int)
    ensures ApplyAll(open, a + b, number) == ApplyAll(ApplyAll(open, a, number), b, number)
    decreases |a|
  {
    if a == [] {
      assert a + b == b;
    } else {
      assert (a + b)[0] == a[0] && (a + b)[1..] == a[1..] + b;
      ApplyChains(Apply(open, a[0], number), a[1..], b, number);
    }
  }

  lemma {:induction false} CreatesApplied(failing: Failing, keys: seq<Key>, open: Issues, number: Key -> int)
    requires forall k | k in keys :: k in failing
    ensures var after := ApplyAll(open, Creates(failing, keys), number);
            && (forall k :: k in after <==> k in open || k in keys)
            && (forall k | k in after :: after[k] == if k in keys then Issue(number(k), failing[k].body, failing[k].labels) else open[k])
    decreases |keys|
  {
    if keys != [] {
      var k, rest := keys[0], keys[1..];
      assert keys == [k] + rest;
      var step := Apply(open, Create(k, failing[k].labels, failing[k].body), number);
      CreatesApplied(failing, rest, step, number);
      assert Creates(failing, keys)[1..] == Creates(failing, rest);
    }
  }

  /** An issue after the update that is planned for it, if one is. */
  function Updated(issue: Issue, wanted: Wanted, family: set<string>): Issue {
    if Current(issue, wanted, family) then issue
    else Issue(issue.number, wanted.body, (issue.labels + wanted.labels) - Stale(issue, wanted, family))
  }

  lemma {:induction false} UpdatesApplied(failing: Failing, open: Issues, family: set<string>, keys: seq<Key>, now: Issues,
                                          number: Key -> int)
    requires NoRepeats(keys) && forall k | k in keys :: k in failing && k in open && k in now && now[k] == open[k]
    ensures var after := ApplyAll(now, Updates(failing, open, family, keys), number);
            && after.Keys == now.Keys
            && (forall k | k in now :: after[k] == if k in keys then Updated(open[k], failing[k], family) else now[k])
    decreases |keys|
  {
    if keys != [] {
      var k, rest := keys[0], keys[1..];
      assert keys == [k] + rest && NoRepeats(rest) && k !in rest;
      var step := now[k := Updated(open[k], failing[k], family)];
      UpdatesApplied(failing, open, family, rest, step, number);
      var actions, tail := Updates(failing, open, family, keys), Updates(failing, open, family, rest);
      if Current(open[k], failing[k], family) {
        assert step == now;
      } else {
        assert actions[1..] == tail && Apply(now, actions[0], number) == step;
      }
    }
  }

  lemma {:induction false} ClosesApplied(open: Issues, keys: seq<Key>, now: Issues, number: Key -> int)
    requires forall k | k in keys :: k in open
    ensures ApplyAll(now, Closes(open, keys), number) == now - set k | k in keys
    decreases |keys|
  {
    if keys != [] {
      var k, rest := keys[0], keys[1..];
      assert keys == [k] + rest;
      ClosesApplied(open, rest, now - {k}, number);
      assert Closes(open, keys)[1..] == Closes(open, rest);
      assert now - {k} - (set x | x in rest) == now - set x | x in keys;
    } else {
      assert now - (set k | k in keys) == now;
    }
  }

  /** MAIN RESULT. Applying a plan leaves exactly the issues of the failing keys and those it was not to close: every
      failing key has an issue with the wanted labels and text, an issue it already had keeps its number, and every
      other kept issue is untouched. */
  lemma PlanSettles(failing: Failing, closing: set<Key>, open: Issues, family: set<string>, number: Key -> int)
    requires closing !! failing.Keys
    ensures var after := ApplyAll(open, Plan(failing, closing, open, family), number);
            && after.Keys == failing.Keys + (open.Keys - closing)
            && (forall k | k in failing :: Current(after[k], failing[k], family))
            && (forall k | k in failing && k in open :: after[k].number == open[k].number)
            && (forall k | k in open && k !in failing && k !in closing :: after[k] == open[k])
  {
    var a, b, c := failing.Keys - open.Keys, failing.Keys * open.Keys, closing * open.Keys;
    var one, two := PlanApplied(failing, closing, open, family, number);
    hide *;
    forall k | k in b ensures Current(Updated(open[k], failing[k], family), failing[k], family) {
      UpdatedIsCurrent(open[k], failing[k], family);
    }
    forall k | k in a ensures Current(one[k], failing[k], family) {
      NewIsCurrent(number(k), failing[k], family);
    }
    forall k | k in b ensures Updated(open[k], failing[k], family).number == open[k].number {
      UpdatedKeepsNumber(open[k], failing[k], family);
    }
  }

  /** The state after each of the three parts of a plan. */
  lemma PlanApplied(failing: Failing, closing: set<Key>, open: Issues, family: set<string>, number: Key -> int)
    returns (one: Issues, two: Issues)
    ensures one.Keys == two.Keys == open.Keys + failing.Keys
    ensures forall k | k in one :: one[k] == if k in failing && k !in open then Issue(number(k), failing[k].body, failing[k].labels) else open[k]
    ensures forall k | k in two :: two[k] == if k in failing && k in open then Updated(open[k], failing[k], family) else one[k]
    ensures ApplyAll(open, Plan(failing, closing, open, family), number) == two - (closing * open.Keys)
  {
    hide *;
    var a, b, c := failing.Keys - open.Keys, failing.Keys * open.Keys, closing * open.Keys;
    PlanParts(failing, closing, open, family);
    Listed(a);
    Listed(b);
    Listed(c);
    var p, q, r := Creates(failing, Ascending(a)), Updates(failing, open, family, Ascending(b)), Closes(open, Ascending(c));
    ApplyChains(open, p + q, r, number);
    ApplyChains(open, p, q, number);
    CreatesApplied(failing, Ascending(a), open, number);
    one := ApplyAll(open, p, number);
    forall k ensures k in one.Keys <==> k in open.Keys + failing.Keys {
      assert k in one <==> k in open || k in Ascending(a);
      assert k in Ascending(a) <==> k in a;
    }
    UpdatesApplied(failing, open, family, Ascending(b), one, number);
    two := ApplyAll(one, q, number);
    ClosesApplied(open, Ascending(c), two, number);
  }

  lemma Listed(keys: set<Key>)
    ensures var s := Ascending(keys); NoRepeats(s) && (forall k :: k in s <==> k in keys) && (set k | k in s) == keys
  {
    AscendingSorts(keys);
    var s := Ascending(keys);
    assert forall k :: k in s <==> k in keys;
    hide Ascending;
  }

  lemma PlanParts(failing: Failing, closing: set<Key>, open: Issues, family: set<string>)
    ensures var a, b, c := Ascending(failing.Keys - open.Keys), Ascending(failing.Keys * open.Keys), Ascending(closing * open.Keys);
            && (forall k | k in a :: k in failing) && (forall k | k in b :: k in failing && k in open)
            && (forall k | k in c :: k in open)
            && Plan(failing, closing, open, family) == Creates(failing, a) + Updates(failing, open, family, b) + Closes(open, c)
  {
    AscendingSorts(failing.Keys - open.Keys);
    AscendingSorts(failing.Keys * open.Keys);
    AscendingSorts(closing * open.Keys);
    hide Ascending, Increasing, Creates, Updates, Closes;
  }

  lemma NewIsCurrent(number: int, wanted: Wanted, family: set<string>)
    ensures Current(Issue(number, wanted.body, wanted.labels), wanted, family)
  {
  }

  lemma UpdatedKeepsNumber(issue: Issue, wanted: Wanted, family: set<string>)
    ensures Updated(issue, wanted, family).number == issue.number
  {
  }

  lemma UpdatedIsCurrent(issue: Issue, wanted: Wanted, family: set<string>)
    ensures Current(Updated(issue, wanted, family), wanted, family)
  {
  }

  /** A plan for issues that are all current, with nothing to close, is empty. */
  lemma NothingPlanned(failing: Failing, closing: set<Key>, open: Issues, family: set<string>)
    requires failing.Keys <= open.Keys && closing !! open.Keys
    requires forall k | k in failing :: Current(open[k], failing[k], family)
    ensures Plan(failing, closing, open, family) == []
  {
    assert failing.Keys - open.Keys == {} && closing * open.Keys == {};
    AscendingSorts(failing.Keys * open.Keys);
    AllCurrent(failing, open, family, Ascending(failing.Keys * open.Keys));
  }

  lemma {:induction false} AllCurrent(failing: Failing, open: Issues, family: set<string>, keys: seq<Key>)
    requires forall k | k in keys :: k in failing && k in open && Current(open[k], failing[k], family)
    ensures Updates(failing, open, family, keys) == []
  {
    if keys != [] {
      assert keys[0] in keys && forall k | k in keys[1..] :: k in keys;
      AllCurrent(failing, open, family, keys[1..]);
    }
  }

  /** MAIN RESULT for the source sentinel: one application reaches the fixpoint, for every verdict. Unresolved keys keep
      their issues. */
  lemma SentinelFixpoint(failing: Failing, open: Issues, unresolved: set<Key>, causes: set<string>, number: Key -> int)
    ensures var after := ApplyAll(open, Plan(failing, open.Keys - failing.Keys - unresolved, open, causes), number);
            && Plan(failing, after.Keys - failing.Keys - unresolved, after, causes) == []
            && (forall k | k in open && k in unresolved && k !in failing :: k in after && after[k] == open[k])
            && after.Keys == failing.Keys + (open.Keys * unresolved)
  {
    var closing := open.Keys - failing.Keys - unresolved;
    var after := ApplyAll(open, Plan(failing, closing, open, causes), number);
    PlanSettles(failing, closing, open, causes, number);
    assert after.Keys - failing.Keys - unresolved == {};
    hide Plan, ApplyAll, Current;
    NothingPlanned(failing, {}, after, causes);
  }

  /** MAIN RESULT for the workflow observer: the same, as long as nothing is failing and recovered at once. A key that
      is neither keeps its issue. */
  lemma WorkflowFixpoint(failing: Failing, recovered: set<Key>, open: Issues, number: Key -> int)
    requires recovered !! failing.Keys
    ensures var after := ApplyAll(open, Plan(failing, recovered, open, {}), number);
            && Plan(failing, recovered, after, {}) == []
            && (forall k | k in open && k !in failing && k !in recovered :: k in after && after[k] == open[k])
            && after.Keys == failing.Keys + (open.Keys - recovered)
  {
    PlanSettles(failing, recovered, open, {}, number);
    hide Plan, ApplyAll, Current;
    NothingPlanned(failing, recovered, ApplyAll(open, Plan(failing, recovered, open, {}), number), {});
  }

  // ----- one action for each key

  function KeysOf(actions: seq<Action>): seq<Key> { if actions == [] then [] else [actions[0].key] + KeysOf(actions[1..]) }

  lemma {:induction false} KeysOfSum(a: seq<Action>, b: seq<Action>)
    ensures KeysOf(a + b) == KeysOf(a) + KeysOf(b)
  {
    if a == [] {
      assert a + b == b;
    } else {
      assert (a + b)[0] == a[0] && (a + b)[1..] == a[1..] + b;
      KeysOfSum(a[1..], b);
    }
  }

  lemma {:induction false} CreateKeys(failing: Failing, keys: seq<Key>)
    requires forall k | k in keys :: k in failing
    ensures KeysOf(Creates(failing, keys)) == keys
  {
    if keys != [] {
      assert keys == [keys[0]] + keys[1..];
      CreateKeys(failing, keys[1..]);
      assert Creates(failing, keys)[1..] == Creates(failing, keys[1..]);
    }
  }

  lemma {:induction false} CloseKeys(open: Issues, keys: seq<Key>)
    requires forall k | k in keys :: k in open
    ensures KeysOf(Closes(open, keys)) == keys
  {
    if keys != [] {
      assert keys == [keys[0]] + keys[1..];
      CloseKeys(open, keys[1..]);
      assert Closes(open, keys)[1..] == Closes(open, keys[1..]);
    }
  }

  lemma {:induction false} UpdateKeys(failing: Failing, open: Issues, family: set<string>, keys: seq<Key>)
    requires NoRepeats(keys) && forall k | k in keys :: k in failing && k in open
    ensures var u := KeysOf(Updates(failing, open, family, keys)); NoRepeats(u) && forall k | k in u :: k in keys
  {
    if keys != [] {
      var k, rest := keys[0], keys[1..];
      assert keys == [k] + rest && NoRepeats(rest) && k !in rest;
      UpdateKeys(failing, open, family, rest);
      var u := KeysOf(Updates(failing, open, family, rest));
      if !Current(open[k], failing[k], family) {
        assert Updates(failing, open, family, keys)[1..] == Updates(failing, open, family, rest);
        assert KeysOf(Updates(failing, open, family, keys)) == [k] + u;
        assert k !in u;
      }
    }
  }

  lemma DistinctSum(a: seq<Key>, b: seq<Key>)
    requires NoRepeats(a) && NoRepeats(b) && forall k | k in a :: k !in b
    ensures NoRepeats(a + b)
  {
    var s := a + b;
    forall i, j | 0 <= i < j < |s| ensures s[i] != s[j] {
      if i < |a| <= j {
        assert s[i] in a && s[j] == b[j - |a|] && s[j] in b;
      }
    }
  }

  /** Each key gets at most one action. */
  lemma OneActionPerKey(failing: Failing, closing: set<Key>, open: Issues, family: set<string>)
    requires closing !! failing.Keys
    ensures NoRepeats(KeysOf(Plan(failing, closing, open, family)))
  {
    hide *;
    var a, b, c := failing.Keys - open.Keys, failing.Keys * open.Keys, closing * open.Keys;
    PlanParts(failing, closing, open, family);
    Listed(a);
    Listed(b);
    Listed(c);
    var p, q, r := Creates(failing, Ascending(a)), Updates(failing, open, family, Ascending(b)), Closes(open, Ascending(c));
    KeysOfSum(p + q, r);
    KeysOfSum(p, q);
    CreateKeys(failing, Ascending(a));
    UpdateKeys(failing, open, family, Ascending(b));
    CloseKeys(open, Ascending(c));
    DistinctSum(KeysOf(p), KeysOf(q));
    DistinctSum(KeysOf(p) + KeysOf(q), KeysOf(r));
  }

  // ----- the sentinel's report

  /** A healthy or degraded row; `unknown` says that it proves no recovery. */
  datatype Observed = Observed(source: Key, unknown: bool)

  datatype HealthReport = HealthReport(failing: Failing, observed: seq<Observed>, paused: set<Key>, historyAvailable: bool)

  /** The sources whose issues are not to be closed. */
  function Unresolved(report: HealthReport, liveness: Key): set<Key> {
    (set i | 0 <= i < |report.observed| && report.observed[i].unknown :: report.observed[i].source)
    + report.paused + if report.historyAvailable then {} else {liveness}
  }

  /** `plan_health_issue_actions` */
  method PlanHealthActions(report: HealthReport, open: Issues, liveness: Key, causes: set<string>) returns (actions: seq<Action>)
    ensures actions == Plan(report.failing, open.Keys - report.failing.Keys - Unresolved(report, liveness), open, causes)
  {
    var unresolved: set<Key> := {};
    for i := 0 to |report.observed|
      invariant unresolved == set j | 0 <= j < i && report.observed[j].unknown :: report.observed[j].source
    {
      if report.observed[i].unknown {
        unresolved := unresolved + {report.observed[i].source};
      }
    }
    unresolved := unresolved + report.paused;
    if !report.historyAvailable {
      unresolved := unresolved + {liveness};
    }
    assert unresolved == Unresolved(report, liveness);
    actions := PlanIssueActions(report.failing, open, unresolved, causes);
  }

  /** A source that is paused, whose row proves no recovery, or whose liveness cannot be judged keeps its open issue
      unless it is failing, and then the issue is brought up to date. */
  lemma UnresolvedKeepsIssue(report: HealthReport, open: Issues, liveness: Key, causes: set<string>, number: Key -> int, k: Key)
    requires k in open
    requires k in report.paused || (k == liveness && !report.historyAvailable) || Observed(k, true) in report.observed
    ensures var unresolved := Unresolved(report, liveness);
            var after := ApplyAll(open, Plan(report.failing, open.Keys - report.failing.Keys - unresolved, open, causes), number);
            && k in after && after[k].number == open[k].number
            && if k in report.failing then Current(after[k], report.failing[k], causes) else after[k] == open[k]
  {
    if Observed(k, true) in report.observed {
      var i :| 0 <= i < |report.observed| && report.observed[i] == Observed(k, true);
      assert report.observed[i].source in Unresolved(report, liveness);
    }
    assert k in Unresolved(report, liveness);
    PlanSettles(report.failing, open.Keys - report.failing.Keys - Unresolved(report, liveness), open, causes, number);
    hide Plan, ApplyAll, Current, Unresolved;
  }
}
