/** The workflow observer: verdicts from run lists and from the self-heal heartbeat, and the reconciliation of
    their issues. */
module WorkflowHealth {
  import opened Common
  import opened Ordered
  import opened Sorting
  import opened IssuePlans

  datatype Conclusion = Failure | TimedOut | StartupFailure | Success | Indecisive

  /** One run; a creation time that cannot be read is none. */
  datatype Run = Run(created: Option<int>, conclusion: Conclusion)

  predicate Failed(r: Run) { r.conclusion.Failure? || r.conclusion.TimedOut? || r.conclusion.StartupFailure? }

  predicate Decisive(r: Run) { Failed(r) || r.conclusion.Success? }

  /** Not older: undated runs are older than all others. */
  predicate NotOlder(x: Run, y: Run) { y.created.None? || (x.created.Some? && x.created.value >= y.created.value) }

  function NewestFirst(runs: seq<Run>): seq<Run> { Sort(runs, NotOlder) }

  function FirstDecisive(runs: seq<Run>): Option<Run> {
    if runs == [] then None else if Decisive(runs[0]) then Some(runs[0]) else FirstDecisive(runs[1..])
  }

  /** `select_latest_decisive_run` */
  method SelectLatestDecisive(runs: seq<Run>) returns (r: Option<Run>)
    ensures r == FirstDecisive(NewestFirst(runs))
  {
    var order := NewestFirst(runs);
    for i := 0 to |order|
      invariant FirstDecisive(order[i..]) == FirstDecisive(order)
    {
      assert order[i..][0] == order[i] && order[i..][1..] == order[i + 1..];
      if Decisive(order[i]) {
        return Some(order[i]);
      }
    }
    r := None;
  }

  function Streak(runs: seq<Run>): nat {
    if runs == [] then 0
    else if Failed(runs[0]) then 1 + Streak(runs[1..])
    else if Decisive(runs[0]) then 0
    else Streak(runs[1..])
  }

  /** `count_leading_failures` */
  method CountLeadingFailures(runs: seq<Run>) returns (count: nat)
    ensures count == Streak(NewestFirst(runs))
  {
    var order := NewestFirst(runs);
    count := 0;
    for i := 0 to |order|
      invariant count + Streak(order[i..]) == Streak(order)
    {
      assert order[i..][0] == order[i] && order[i..][1..] == order[i + 1..];
      if Failed(order[i]) {
        count := count + 1;
      } else if Decisive(order[i]) {
        break;
      }
    }
  }

  lemma {:induction false} FirstDecisiveIsEarliest(runs: seq<Run>)
    ensures match FirstDecisive(runs)
            case None => forall r | r in runs :: !Decisive(r)
            case Some(r) => Decisive(r) && exists i :: 0 <= i < |runs| && runs[i] == r && forall j | 0 <= j < i :: !Decisive(runs[j])
  {
    if runs != [] && !Decisive(runs[0]) {
      FirstDecisiveIsEarliest(runs[1..]);
      match FirstDecisive(runs[1..])
      case None =>
      case Some(r) =>
        var i :| 0 <= i < |runs[1..]| && runs[1..][i] == r && forall j | 0 <= j < i :: !Decisive(runs[1..][j]);
        assert runs[i + 1] == r;
        forall j | 0 <= j < i + 1 ensures !Decisive(runs[j]) {
          if j > 0 {
            assert runs[1..][j - 1] == runs[j];
          }
        }
    }
  }

  /** The verdict is drawn from a newest decisive run: none that is decisive is newer. */
  lemma LatestIsNewest(runs: seq<Run>)
    ensures match FirstDecisive(NewestFirst(runs))
            case None => forall r | r in runs :: !Decisive(r)
            case Some(r) => Decisive(r) && r in runs && forall x | x in runs && Decisive(x) :: NotOlder(r, x)
  {
    var order := NewestFirst(runs);
    SortSorts(runs, NotOlder);
    FirstDecisiveIsEarliest(order);
    forall x ensures x in order <==> x in runs {
      SortMembers(runs, NotOlder, x);
    }
    hide Sort, FirstDecisive, Decisive;
    match FirstDecisive(order)
    case None =>
    case Some(r) =>
      var i :| 0 <= i < |order| && order[i] == r && forall j | 0 <= j < i :: !Decisive(order[j]);
      forall x | x in runs && Decisive(x) ensures NotOlder(r, x) {
        var k :| 0 <= k < |order| && order[k] == x;
        if k == i {
          assert NotOlder(r, r);
        } else {
          assert i < k;
          assert NotOlder(order[i], order[k]);
        }
      }
  }

  datatype Category = Failing | Healthy | Unknown | Paused

  function Classify(runs: seq<Run>): Category {
    match FirstDecisive(NewestFirst(runs))
    case None => Unknown
    case Some(r) => if Failed(r) then Failing else Healthy
  }

  /** A workflow is failing exactly when its streak of failures is not empty. */
  lemma {:induction false} FailingHasStreak(runs: seq<Run>)
    ensures FirstDecisive(runs).Some? && Failed(FirstDecisive(runs).value) <==> Streak(runs) > 0
  {
    if runs != [] && !Decisive(runs[0]) {
      FailingHasStreak(runs[1..]);
    }
  }

  // ----- the heartbeat

  datatype Outcome = Error | Pending | Final

  /** The repair routine's beacon; a time that cannot be read is none. Times are in seconds. */
  datatype Beacon = Beacon(runAt: Option<int>, outcome: Outcome)

  datatype Trouble = RepairError | StuckPending | Stale

  const HOUR: int := 3600
  const PENDING_MAX_HOURS: int := 3
  const MAX_HOURS: int := 26

  /** `selfheal_liveness_verdict` */
  function Liveness(beacon: Option<Beacon>, now: int): Option<Trouble> {
    if beacon.None? || beacon.value.runAt.None? then None
    else
      var age := now - beacon.value.runAt.value;
      if beacon.value.outcome.Error? then Some(RepairError)
      else if beacon.value.outcome.Pending? && age > PENDING_MAX_HOURS * HOUR then Some(StuckPending)
      else if age <= MAX_HOURS * HOUR then None
      else Some(Stale)
  }

  /** Without a new beacon, trouble never goes away as time passes. */
  lemma TroubleStays(beacon: Option<Beacon>, now: int, later: int)
    requires now <= later && Liveness(beacon, now).Some?
    ensures Liveness(beacon, later).Some?
  {
  }

  // ----- the report and the reconciliation

  /** `guarded`: a configured pause or disabled evaluation covers this workflow. */
  datatype Workflow = Workflow(runs: seq<Run>, guarded: bool)

  function CategoryOf(w: Workflow): Category {
    if w.guarded && Classify(w.runs) != Failing then Paused else Classify(w.runs)
  }

  function InCategory(workflows: map<Key, Workflow>, c: Category): set<Key> {
    set k | k in workflows && CategoryOf(workflows[k]) == c
  }

  /** The keys reported failing at `now`. */
  function FailingKeys(workflows: map<Key, Workflow>, selfheal: Key, beacon: Option<Beacon>, now: int): set<Key> {
    InCategory(workflows, Failing) + if Liveness(beacon, now).Some? then {selfheal} else {}
  }

  /** The keys whose issues may be closed; the heartbeat is looked at again, somewhat later. */
  function RecoveredKeys(workflows: map<Key, Workflow>, selfheal: Key, beacon: Option<Beacon>, later: int): set<Key> {
    InCategory(workflows, Healthy) + if beacon.Some? && Liveness(beacon, later).None? then {selfheal} else {}
  }

  /** No key is failing and recovered at once, although the two sets are drawn at different times. */
  lemma NeverBoth(workflows: map<Key, Workflow>, selfheal: Key, beacon: Option<Beacon>, now: int, later: int)
    requires selfheal !in workflows && now <= later
    ensures FailingKeys(workflows, selfheal, beacon, now) !! RecoveredKeys(workflows, selfheal, beacon, later)
  {
    if Liveness(beacon, now).Some? {
      TroubleStays(beacon, now, later);
    }
    hide CategoryOf, Liveness;
  }

  /** MAIN RESULT. One pass of the observer reaches a state in which a second pass on the same observations does
      nothing. A workflow that is unknown or paused keeps its issue as it was. */
  lemma ObserverFixpoint(workflows: map<Key, Workflow>, selfheal: Key, beacon: Option<Beacon>, now: int, later: int,
                         failing: Failing, open: Issues, number: Key -> int)
    requires selfheal !in workflows && now <= later
    requires failing.Keys == FailingKeys(workflows, selfheal, beacon, now)
    ensures var recovered := RecoveredKeys(workflows, selfheal, beacon, later);
            var after := ApplyAll(open, IssuePlans.Plan(failing, recovered, open, {}), number);
            && IssuePlans.Plan(failing, recovered, after, {}) == []
            && after.Keys == failing.Keys + (open.Keys - recovered)
            && forall k | k in open && k in workflows && (CategoryOf(workflows[k]).Unknown? || CategoryOf(workflows[k]).Paused?) ::
                 k in after && after[k] == open[k]
  {
    NeverBoth(workflows, selfheal, beacon, now, later);
    WorkflowFixpoint(failing, RecoveredKeys(workflows, selfheal, beacon, later), open, number);
    hide IssuePlans.Plan, ApplyAll, Liveness, CategoryOf;
  }

  /** The heartbeat's issue is closed exactly when there is a beacon and it shows no trouble. In particular a beacon whose
      time cannot be read closes it, although nothing was observed to recover. */
  lemma HeartbeatClosedExactly(workflows: map<Key, Workflow>, selfheal: Key, beacon: Option<Beacon>, now: int, later: int,
                               failing: Failing, open: Issues, number: Key -> int)
    requires selfheal !in workflows && now <= later && selfheal in open
    requires failing.Keys == FailingKeys(workflows, selfheal, beacon, now)
    ensures var recovered := RecoveredKeys(workflows, selfheal, beacon, later);
            var after := ApplyAll(open, IssuePlans.Plan(failing, recovered, open, {}), number);
            selfheal !in after <==>
              beacon.Some? && (beacon.value.runAt.None?
                || (!beacon.value.outcome.Error?
                    && later - beacon.value.runAt.value <= (if beacon.value.outcome.Pending? then 3 else 26) * HOUR))
  {
    NeverBoth(workflows, selfheal, beacon, now, later);
    WorkflowFixpoint(failing, RecoveredKeys(workflows, selfheal, beacon, later), open, number);
    if Liveness(beacon, now).Some? {
      TroubleStays(beacon, now, later);
    }
    hide IssuePlans.Plan, ApplyAll, CategoryOf;
  }
}
