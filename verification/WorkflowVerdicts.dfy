/** What the verdict on a workflow says about its list of runs. */
module WorkflowVerdicts {
  import opened Common
  import opened Ordered
  import opened Sorting
  import opened IssuePlans
  import opened WorkflowHealth

  predicate Broke(c: Conclusion) { c == Failure || c == TimedOut || c == StartupFailure }

  predicate Decides(c: Conclusion) { Broke(c) || c == Success }

  /** Strictly newer; a run without a readable time is older than every dated one. */
  predicate Newer(x: Run, y: Run) { x.created.Some? && (y.created.None? || x.created.value > y.created.value) }

  /** The run that decides: no deciding run is newer, and of several that are as new it is listed first. */
  ghost predicate DecidedAt(runs: seq<Run>, i: nat) {
    && i < |runs| && Decides(runs[i].conclusion)
    && (forall j | 0 <= j < i && Decides(runs[j].conclusion) :: Newer(runs[i], runs[j]))
    && (forall j | i < j < |runs| && Decides(runs[j].conclusion) :: !Newer(runs[j], runs[i]))
  }

  lemma OneDecides(runs: seq<Run>, i: nat, k: nat)
    requires DecidedAt(runs, i) && DecidedAt(runs, k)
    ensures i == k
  {
  }

  lemma NotOlderOrders()
    ensures TotalPreorder(NotOlder)
  {
  }

  lemma {:induction false} FirstAmongTies(s: seq<Run>, r: Run)
    requires FirstDecisive(s) == Some(r)
    ensures FirstDecisive(Ties(s, NotOlder, r)) == Some(r)
  {
    var t := if NotOlder(s[0], r) && NotOlder(r, s[0]) then [s[0]] else [];
    assert Ties(s, NotOlder, r) == t + Ties(s[1..], NotOlder, r);
    if Decisive(s[0]) {
      assert (t + Ties(s[1..], NotOlder, r))[0] == r;
    } else {
      FirstAmongTies(s[1..], r);
      if t != [] {
        assert (t + Ties(s[1..], NotOlder, r))[1..] == Ties(s[1..], NotOlder, r);
      } else {
        assert t + Ties(s[1..], NotOlder, r) == Ties(s[1..], NotOlder, r);
      }
    }
  }

  /** The first deciding run of a tie, back in the whole list. */
  lemma {:induction false} FirstTied(s: seq<Run>, x: Run, r: Run) returns (i: nat)
    requires FirstDecisive(Ties(s, NotOlder, x)) == Some(r)
    ensures i < |s| && s[i] == r && NotOlder(r, x) && NotOlder(x, r) && Decisive(r)
    ensures forall j | 0 <= j < i && Decisive(s[j]) :: !(NotOlder(s[j], x) && NotOlder(x, s[j]))
  {
    assert s != [];
    var tied := NotOlder(s[0], x) && NotOlder(x, s[0]);
    var t := if tied then [s[0]] else [];
    assert Ties(s, NotOlder, x) == t + Ties(s[1..], NotOlder, x);
    if tied && Decisive(s[0]) {
      i := 0;
      assert (t + Ties(s[1..], NotOlder, x))[0] == s[0];
    } else {
      if tied {
        assert (t + Ties(s[1..], NotOlder, x))[1..] == Ties(s[1..], NotOlder, x);
      } else {
        assert t + Ties(s[1..], NotOlder, x) == Ties(s[1..], NotOlder, x);
      }
      i := FirstTied(s[1..], x, r);
      i := i + 1;
      assert forall j | 0 < j < i :: s[j] == s[1..][j - 1];
    }
  }

  /** The verdict's run, where the list has it. */
  lemma LatestIsDecidedAt(runs: seq<Run>) returns (i: nat)
    requires FirstDecisive(NewestFirst(runs)).Some?
    ensures DecidedAt(runs, i) && runs[i] == FirstDecisive(NewestFirst(runs)).value
  {
    var r := FirstDecisive(NewestFirst(runs)).value;
    LatestIsNewest(runs);
    NotOlderOrders();
    FirstAmongTies(NewestFirst(runs), r);
    SortStable(runs, NotOlder, r);
    i := FirstTied(runs, r, r);
    hide Sort, Ties, FirstDecisive;
    forall j | 0 <= j < |runs| && Decides(runs[j].conclusion)
      ensures j < i ==> Newer(runs[i], runs[j])
      ensures j > i ==> !Newer(runs[j], runs[i])
    {
      assert runs[j] in runs && Decisive(runs[j]);
    }
  }

  /** MAIN RESULT. A workflow is failing exactly when the run that decides broke, healthy exactly when it succeeded, and
      unknown exactly when no run decides. */
  lemma ClassifyMeans(runs: seq<Run>)
    ensures Classify(runs) == Failing <==> exists i: nat :: DecidedAt(runs, i) && Broke(runs[i].conclusion)
    ensures Classify(runs) == Healthy <==> exists i: nat :: DecidedAt(runs, i) && runs[i].conclusion == Success
    ensures Classify(runs) == Unknown <==> forall r | r in runs :: !Decides(r.conclusion)
    ensures Classify(runs) != Paused
  {
    LatestIsNewest(runs);
    if FirstDecisive(NewestFirst(runs)).Some? {
      var i := LatestIsDecidedAt(runs);
      forall k: nat | DecidedAt(runs, k) ensures k == i {
        OneDecides(runs, i, k);
      }
      assert runs[i] in runs;
    } else {
      forall k: nat ensures !DecidedAt(runs, k) {
        if k < |runs| {
          assert runs[k] in runs;
        }
      }
    }
    hide Sort, FirstDecisive, Newer;
  }

  /** The positions of the runs that broke since the last success, in a list with the newest first. */
  function BrokenSince(order: seq<Run>): set<int> {
    set i | 0 <= i < |order| && Broke(order[i].conclusion) && forall j | 0 <= j < i :: order[j].conclusion != Success
  }

  lemma {:induction false} StreakIsSize(order: seq<Run>)
    ensures Streak(order) == |BrokenSince(order)|
  {
    if order != [] {
      var rest := order[1..];
      StreakIsSize(rest);
      SinceStep(order);
      var later := set i | i in BrokenSince(rest) :: i + 1;
      hide BrokenSince;
      ShiftSize(BrokenSince(rest), later);
    }
  }

  /** Behind a success there is nothing to count; else the first run counts if it broke, and the others move on by one. */
  lemma SinceStep(order: seq<Run>)
    requires order != []
    ensures var later := set i | i in BrokenSince(order[1..]) :: i + 1;
      && 0 !in later
      && BrokenSince(order) ==
           if order[0].conclusion == Success then {} else (if Broke(order[0].conclusion) then {0} else {}) + later
  {
    var later := set i | i in BrokenSince(order[1..]) :: i + 1;
    if order[0].conclusion != Success {
      forall i ensures i in BrokenSince(order) <==> (i == 0 && Broke(order[0].conclusion)) || i in later {
        ShiftedSince(order, i);
        assert i in later <==> i - 1 in BrokenSince(order[1..]);
      }
    }
  }

  lemma ShiftedSince(order: seq<Run>, i: int)
    requires order != [] && order[0].conclusion != Success
    ensures i - 1 in BrokenSince(order[1..]) <==> i > 0 && i in BrokenSince(order)
  {
    var rest := order[1..];
    assert forall j | 0 <= j < |rest| :: rest[j] == order[j + 1];
    if i - 1 in BrokenSince(rest) {
      forall j | 0 <= j < i ensures order[j].conclusion != Success {
        assert j > 0 ==> order[j] == rest[j - 1];
      }
    }
    if i > 0 && i in BrokenSince(order) {
      forall j | 0 <= j < i - 1 ensures rest[j].conclusion != Success {
        assert order[j + 1].conclusion != Success;
      }
    }
  }

  lemma {:induction false} ShiftSize(s: set<int>, t: set<int>)
    requires t == set i | i in s :: i + 1
    ensures |t| == |s|
    decreases |s|
  {
    HasElement(s);
    if s != {} {
      var x: int :| x in s;
      var u := set i | i in s - {x} :: i + 1;
      ShiftSize(s - {x}, u);
      forall i ensures i in t <==> i in u + {x + 1} {
        assert i in t <==> i - 1 in s;
        assert i in u <==> i - 1 in s - {x};
      }
      assert t == u + {x + 1};
      assert x + 1 !in u;
    } else {
      assert t == {};
    }
  }

  /** What is reported and what may be closed, told from the runs: failing is whatever broke last, guarded or not;
      recovered is whatever succeeded last and is not guarded; and the heartbeat is failing when a dated beacon
      reports an error, has been pending for over three hours, or is older than 26 hours. */
  lemma KeysMean(workflows: map<Key, Workflow>, selfheal: Key, beacon: Option<Beacon>, now: int)
    requires selfheal !in workflows
    ensures forall k | k in workflows ::
      && (k in FailingKeys(workflows, selfheal, beacon, now) <==>
            (exists i: nat :: DecidedAt(workflows[k].runs, i) && Broke(workflows[k].runs[i].conclusion)))
      && (k in RecoveredKeys(workflows, selfheal, beacon, now) <==>
            !workflows[k].guarded
            && exists i: nat :: DecidedAt(workflows[k].runs, i) && workflows[k].runs[i].conclusion == Success)
    ensures var troubled := beacon.Some? && beacon.value.runAt.Some?
              && var age := now - beacon.value.runAt.value;
                 beacon.value.outcome == Error || (beacon.value.outcome == Pending && age > 3 * 3600) || age > 26 * 3600;
      && (selfheal in FailingKeys(workflows, selfheal, beacon, now) <==> troubled)
      && (selfheal in RecoveredKeys(workflows, selfheal, beacon, now) <==> beacon.Some? && !troubled)
    ensures FailingKeys(workflows, selfheal, beacon, now) + RecoveredKeys(workflows, selfheal, beacon, now)
         <= workflows.Keys + {selfheal}
  {
    forall k | k in workflows
      ensures Classify(workflows[k].runs) == Failing <==>
                exists i: nat :: DecidedAt(workflows[k].runs, i) && Broke(workflows[k].runs[i].conclusion)
      ensures Classify(workflows[k].runs) == Healthy <==>
                exists i: nat :: DecidedAt(workflows[k].runs, i) && workflows[k].runs[i].conclusion == Success
    {
      ClassifyMeans(workflows[k].runs);
    }
    hide Classify, DecidedAt;
  }
}
