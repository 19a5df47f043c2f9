/** Whole schedules of refresh sessions over one checkpoint and one working database. */
module RefreshSchedule {
  import opened Common
  import opened Scheduler
  import opened Watermark
  import opened Refresh
  import opened RefreshCheckpoint
  import opened RefreshSessions

  lemma ExploredSound(w: World, b: Baseline, dates: seq<Day>, m: Memory, n: Memory)
    requires b.watermark.Some? && Sound(w, b, dates, m)
    requires SoundDiffs(w, Asked(w.diff, b.watermark.value, dates), n.diffs) && (m.plan.Some? ==> n.diffs == m.diffs)
    requires n == m.(diffs := n.diffs)
    ensures Sound(w, b, dates, n)
  {
    SoundParts(w, b, dates, m);
    SoundParts(w, b, dates, n);
    assert SoundStations(w, n) by {
      assert SoundStations(w, m);
      hide Sound, SoundDiffs, Keepable;
    }
    hide Sound, SoundDiffs, SoundStations, Walkable, ThePlan, Asked, Recorded;
  }

  lemma ExploreConcludes(w: World, b: Baseline, dates: seq<Day>, diffs: map<Question, StoredDiff>, e: Stop, left: nat,
                         inputsChanged: bool)
    requires b.watermark.Some?
    requires WalkStopped(w, b.watermark.value, dates, diffs, e, left)
    ensures Concluded(w, b, dates, Err(e), left, inputsChanged, b, 0)
  {
    hide SingleRun;
  }

  /** Recorded answers that are the remote's own show the remote itself. */
  lemma SeenTrue(w: World, start: Day, dates: seq<Day>, before: map<Question, StoredDiff>)
    requires SoundDiffs(w, Asked(w.diff, start, dates), before)
    ensures Seen(w, w, before)
    ensures forall after | Grown(w, w, start, dates, before, after) :: SoundDiffs(w, Asked(w.diff, start, dates), after)
  {
    hide Asked, Truthful;
  }

  /** `_update` with a checkpoint: from any checkpoint that holds only true answers and results, it dies, refuses for a
      reason, or commits exactly what a single run would have committed. */
  method Update(cp: Checkpoint, db: Database, w: World, b: Baseline, dates: seq<Day>, inputsChanged: bool, fuel: nat)
    returns (r: Result<bool, Stop>, left: nat)
    requires b.watermark.Some? && Ascend(b.watermark.value, dates)
    requires Sound(w, b, dates, cp.Tables()) && db.content == b && db.commits == 0
    modifies cp`diffs, cp`plan, cp`results, cp`seals, db
    ensures Sound(w, b, dates, cp.Tables())
    ensures Concluded(w, b, dates, r, left, inputsChanged, db.content, db.commits)
    ensures |cp.diffs| + |cp.seals| + Bound(cp.plan) + db.commits + left
            == |old(cp.diffs)| + |old(cp.seals)| + Bound(old(cp.plan)) + fuel && left <= fuel
  {
    left := fuel;
    if dates == [] {
      return Ok(false), left;
    }
    ghost var m := Memory(cp.diffs, cp.plan, cp.results, cp.seals, cp.scope);
    assert cp.Tables() == m;
    SoundParts(w, b, dates, m);
    assert forall n: map<Question, StoredDiff> :: m.(diffs := n) == Memory(n, m.plan, m.results, m.seals, m.scope);
    hide *;
    var gathered, intervals;
    SeenTrue(w, b.watermark.value, dates, cp.diffs);
    gathered, intervals, left := Explore(cp, w, w, b.watermark.value, b.active, dates, left);
    TablesExplored(cp, w, b, dates, m);
    if gathered.Err? {
      ExploreConcludes(w, b, dates, cp.diffs, gathered.error, left, inputsChanged);
      return Err(gathered.error), left;
    }
    r, left := Complete(cp, db, w, b, dates, inputsChanged, gathered.value, intervals, left);
  }

  lemma TablesExplored(cp: Checkpoint, w: World, b: Baseline, dates: seq<Day>, m: Memory)
    requires b.watermark.Some? && Sound(w, b, dates, m)
    requires SoundDiffs(w, Asked(w.diff, b.watermark.value, dates), cp.diffs) && (m.plan.Some? ==> cp.diffs == m.diffs)
    requires cp.plan == m.plan && cp.results == m.results && cp.seals == m.seals && cp.scope == m.scope
    ensures Sound(w, b, dates, cp.Tables())
  {
    ExploredSound(w, b, dates, m, cp.Tables());
  }

  // ----- sessions

  /** One start of the program: its settings, the day it runs on, whether an input file changes while it
      runs, and how many durable steps it takes before it dies. */
  datatype Session = Session(settings: Settings, today: Day, inputsChanged: bool, fuel: nat)

  /** Why one session may end without a commit. */
  predicate SessionExplained(w: World, b: Baseline, scope: Option<Scope>, content: Baseline, commits: nat,
                             s: Session, e: Stop, left: nat)
  {
    match e
    case Interrupted => left == 0
    case Dates(why) => PendingDates(content.watermark, s.settings.days, s.settings.lag, s.today) == Err(why)
    case FutureDate => scope.Some? && scope.value.today > s.today
    case ScopeChanged => s.inputsChanged || commits == 1 || (scope.Some? && scope.value.settings != s.settings)
    case EmptyDiff | NoInterval | StationUnusable | ArchiveUnbound =>
      var day := if scope.Some? then scope.value.today else s.today;
      b.watermark.Some? && FrozenDates(b, s.settings, day).Ok? && SingleRun(w, b, FrozenDates(b, s.settings, day).value).None?
    case _ => false
  }

  lemma PendingAscend(watermark: Day, days: int, lag: int, today: Day)
    requires PendingDates(Some(watermark), days, lag, today).Ok?
    ensures Ascend(watermark, PendingDates(Some(watermark), days, lag, today).value)
  {
    PendingWindow(Some(watermark), days, lag, today);
  }

  lemma FreshIsSound(w: World, b: Baseline, dates: seq<Day>, scope: Scope)
    requires b.watermark.Some?
    ensures Sound(w, b, dates, FRESH.(scope := Some(scope)))
  {
    hide Asked, Walkable, ThePlan;
  }

  /** What `Consistent` says, with the days named. */
  lemma ConsistentScope(w: World, b: Baseline, m: Memory, content: Baseline, commits: nat)
    requires Consistent(w, b, m, content, commits) && m.scope.Some?
    ensures var x := m.scope.value;
            && x.baseline == b && FrozenDates(b, x.settings, x.today).Ok? && b.watermark.Some? && commits <= 1
            && var dates := FrozenDates(b, x.settings, x.today).value;
               && Sound(w, b, dates, m) && Ascend(b.watermark.value, dates)
               && (commits == 0 ==> content == b)
               && (commits == 1 ==> Some(content) == SingleRun(w, b, dates) && content != b)
  {
    var x := m.scope.value;
    PendingAscend(b.watermark.value, x.settings.days, x.settings.lag, x.today);
    if commits == 1 {
      RunMovesOn(w, b, x.settings, x.today);
    }
    hide Sound, SingleRun, Ascend;
  }

  lemma SessionConcludes(w: World, b: Baseline, m: Memory, r: Result<bool, Stop>, left: nat, s: Session,
                         content: Baseline, commits: nat)
    requires m.scope.Some? && m.scope.value.baseline == b && m.scope.value.settings == s.settings && b.watermark.Some?
    requires FrozenDates(b, s.settings, m.scope.value.today).Ok?
    requires var dates := FrozenDates(b, s.settings, m.scope.value.today).value;
             Sound(w, b, dates, m) && Concluded(w, b, dates, r, left, s.inputsChanged, content, commits)
    ensures Consistent(w, b, m, content, commits)
    ensures r == Ok(true) <==> commits == 1
    ensures r == Ok(false) ==> FrozenDates(b, s.settings, m.scope.value.today) == Ok([])
    ensures r.Err? ==> SessionExplained(w, b, m.scope, b, 0, s, r.error, left)
  {
    NoWalkNoRun(w, b, FrozenDates(b, s.settings, m.scope.value.today).value);
    hide Sound, SingleRun, PendingDates, Walkable;
  }

  lemma NoWalkNoRun(w: World, b: Baseline, dates: seq<Day>)
    requires b.watermark.Some?
    ensures !Walkable(w, b, dates) ==> SingleRun(w, b, dates).None?
  {
    hide Walkable;
  }

  /** The part of a session that works under an opened checkpoint. */
  method Resume(cp: Checkpoint, db: Database, w: World, ghost b: Baseline, s: Session, saved: Day, fuel: nat)
    returns (r: Result<bool, Stop>, left: nat)
    requires Consistent(w, b, cp.Tables(), db.content, db.commits) && db.commits == 0
    requires cp.scope == Some(Scope(b, s.settings, saved))
    modifies cp`diffs, cp`plan, cp`results, cp`seals, db
    ensures Consistent(w, b, cp.Tables(), db.content, db.commits)
    ensures if r == Ok(true) then db.commits == 1 else db.commits == 0 && db.content == b
    ensures r.Err? ==> SessionExplained(w, b, cp.scope, b, 0, s, r.error, left)
    ensures r == Ok(false) ==> FrozenDates(b, s.settings, saved) == Ok([])
    ensures Work(cp.Tables(), db.commits) + left == old(Work(cp.Tables(), db.commits)) + fuel && left <= fuel
  {
    ConsistentScope(w, b, cp.Tables(), db.content, db.commits);
    hide Consistent, Sound, SingleRun, PendingDates, Ascend, SessionExplained, Concluded;
    if saved > s.today {
      FutureExplained(w, b, s, cp.scope, fuel);
      return Err(FutureDate), fuel;
    }
    var frozen := PendingDates(db.content.watermark, s.settings.days, s.settings.lag, saved);
    assert frozen.Ok?;
    r, left := Update(cp, db, w, db.content, frozen.value, s.inputsChanged, fuel);
    SessionConcludes(w, b, cp.Tables(), r, left, s, db.content, db.commits);
  }

  lemma FutureExplained(w: World, b: Baseline, s: Session, scope: Option<Scope>, left: nat)
    requires scope.Some? && scope.value.today > s.today
    ensures SessionExplained(w, b, scope, b, 0, s, FutureDate, left)
  {
  }

  /** The state just after the first opening. */
  lemma OpenedFresh(w: World, b: Baseline, settings: Settings, today: Day)
    requires PendingDates(b.watermark, settings.days, settings.lag, today).Ok?
    ensures Consistent(w, b, FRESH.(scope := Some(Scope(b, settings, today))), b, 0)
  {
    FreshIsSound(w, b, PendingDates(b.watermark, settings.days, settings.lag, today).value, Scope(b, settings, today));
    hide Sound;
  }

  /** A session under the settings and days of the checkpoint, with unchanged inputs, answers that lead to a result, and
      enough luck. */
  predicate WillCommit(w: World, b: Baseline, scope: Option<Scope>, s: Session) {
    var day := if scope.Some? then scope.value.today else s.today;
    && s.fuel > 34 + |b.active| && !s.inputsChanged
    && PendingDates(b.watermark, s.settings.days, s.settings.lag, s.today).Ok?
    && (scope.Some? ==> scope.value.settings == s.settings && scope.value.today <= s.today)
    && FrozenDates(b, s.settings, day).Ok? && b.watermark.Some?
    && SingleRun(w, b, FrozenDates(b, s.settings, day).value).Some?
  }

  lemma WillCommitParts(w: World, b: Baseline, scope: Option<Scope>, s: Session)
    ensures WillCommit(w, b, scope, s) ==>
              && PendingDates(b.watermark, s.settings.days, s.settings.lag, s.today).Ok? && s.fuel > 0
              && (scope.Some? ==> scope.value.settings == s.settings)
  {
  }

  lemma RefusedScope(w: World, b: Baseline, scope: Option<Scope>, content: Baseline, commits: nat, s: Session, e: Stop, left: nat)
    requires scope.Some? && scope.value.baseline == b && (commits == 0 ==> content == b) && commits <= 1
    requires e == ScopeChanged && (scope.value.baseline != content || scope.value.settings != s.settings)
    ensures SessionExplained(w, b, scope, content, commits, s, e, left)
  {
  }

  lemma EarlyExplained(w: World, b: Baseline, scope: Option<Scope>, content: Baseline, commits: nat, s: Session, left: nat)
    ensures left == 0 ==> SessionExplained(w, b, scope, content, commits, s, Interrupted, left)
    ensures var today := PendingDates(content.watermark, s.settings.days, s.settings.lag, s.today);
            today.Err? ==> SessionExplained(w, b, scope, content, commits, s, Dates(today.error), left)
  {
  }

  /** Such a session commits: it can end in no other way. */
  lemma GoodSessionCommits(w: World, b: Baseline, scope: Option<Scope>, m: Memory, content: Baseline, commits: nat,
                           s: Session, r: Result<bool, Stop>, left: nat)
    requires WillCommit(w, b, scope, s) && Consistent(w, b, m, content, commits)
    requires Work(m, commits) + left >= s.fuel
    requires r.Err? ==> SessionExplained(w, b, scope, b, 0, s, r.error, left)
    requires r == Ok(false) ==> FrozenDates(b, s.settings, if scope.Some? then scope.value.today else s.today) == Ok([])
    ensures r == Ok(true)
  {
    WorkBound(w, b, m, content, commits);
    NotIdle(w, b, scope, s);
    if r.Err? {
      OnlyInterruption(w, b, scope, s, r.error, left);
    }
    hide *;
    OkIsBoolean(r);
  }

  lemma OkIsBoolean(r: Result<bool, Stop>)
    ensures r.Ok? ==> r == Ok(true) || r == Ok(false)
  {
    match r
    case Ok(v) =>
      assert r == Ok(v);
      if v {
        assert v == true;
      } else {
        assert v == false;
      }
    case Err(_) =>
  }

  lemma NotIdle(w: World, b: Baseline, scope: Option<Scope>, s: Session)
    requires WillCommit(w, b, scope, s)
    ensures FrozenDates(b, s.settings, if scope.Some? then scope.value.today else s.today) != Ok([])
    ensures s.fuel > 34 + |b.active|
  {
    NothingToDo(w, b);
    hide SingleRun, PendingDates;
  }

  lemma OnlyInterruption(w: World, b: Baseline, scope: Option<Scope>, s: Session, e: Stop, left: nat)
    requires WillCommit(w, b, scope, s) && SessionExplained(w, b, scope, b, 0, s, e, left)
    ensures e == Interrupted && left == 0
  {
    hide SingleRun, PendingDates;
  }

  lemma NothingToDo(w: World, b: Baseline)
    requires b.watermark.Some?
    ensures SingleRun(w, b, []).None?
  {
    assert Walk(w.diff, b.watermark.value, []).intervals == [];
  }

  /** One session, from any consistent state. */
  method RunSession(cp: Checkpoint, db: Database, w: World, ghost b: Baseline, s: Session)
    returns (r: Result<bool, Stop>, left: nat)
    requires Consistent(w, b, cp.Tables(), db.content, db.commits)
    modifies cp, db
    ensures Consistent(w, b, cp.Tables(), db.content, db.commits)
    ensures r == Ok(true) ==> old(db.commits) == 0 && db.commits == 1
    ensures r != Ok(true) ==> db.commits == old(db.commits) && db.content == old(db.content)
    ensures r.Err? ==> SessionExplained(w, b, old(cp.scope), old(db.content), old(db.commits), s, r.error, left)
    ensures if old(cp.scope).Some? then cp.scope == old(cp.scope)
            else cp.scope.Some? ==> cp.scope.value.settings == s.settings && cp.scope.value.today == s.today
    ensures Work(cp.Tables(), db.commits) + left == old(Work(cp.Tables(), db.commits)) + s.fuel && left <= s.fuel
    ensures old(db.commits) == 0 && WillCommit(w, b, old(cp.scope), s) ==> r == Ok(true)
  {
    left := s.fuel;
    WillCommitParts(w, b, cp.scope, s);
    EarlyExplained(w, b, cp.scope, db.content, db.commits, s, left);
    var today := PendingDates(db.content.watermark, s.settings.days, s.settings.lag, s.today);
    if today.Err? {
      return Err(Dates(today.error)), left;
    }
    ghost var m := cp.Tables();
    if m.scope.Some? {
      ConsistentScope(w, b, m, db.content, db.commits);
    } else {
      OpenedFresh(w, b, s.settings, s.today);
    }
    ghost var good := WillCommit(w, b, m.scope, s);
    var saved;
    hide Sound, SingleRun, PendingDates, Ascend, Consistent, WillCommit, SessionExplained;
    saved, left := cp.Open(db.content, s.settings, s.today, left);
    if saved.Err? {
      assert cp.Tables() == m;
      EarlyExplained(w, b, m.scope, db.content, db.commits, s, left);
      if m.scope.Some? {
        RefusedScope(w, b, m.scope, db.content, db.commits, s, saved.error, left);
      }
      return Err(saved.error), left;
    }
    assert m.scope.None? ==> cp.Tables() == FRESH.(scope := cp.scope);
    assert m.scope.Some? ==> cp.Tables() == m;
    r, left := Resume(cp, db, w, b, s, saved.value, left);
    if r.Err? {
      ScopeNamed(w, b, m.scope, cp.scope.value, s, r.error, left);
    }
    if good {
      GoodSessionCommits(w, b, m.scope, cp.Tables(), db.content, db.commits, s, r, left);
    }
  }

  /** A scope that this session fixed itself explains nothing more than none at all. */
  lemma ScopeNamed(w: World, b: Baseline, before: Option<Scope>, now: Scope, s: Session, e: Stop, left: nat)
    requires SessionExplained(w, b, Some(now), b, 0, s, e, left) && now.settings == s.settings
    requires before == Some(now) || (before.None? && now.today == s.today)
    ensures SessionExplained(w, b, before, b, 0, s, e, left)
  {
    hide SingleRun, PendingDates;
  }

  // ----- schedules

  /** The durable steps that interrupted sessions were allowed. */
  function InterruptedFuel(sessions: seq<Session>, outcomes: seq<Result<bool, Stop>>): nat
    requires |sessions| == |outcomes|
  {
    if sessions == [] then 0
    else
      var n := |sessions| - 1;
      InterruptedFuel(sessions[..n], outcomes[..n]) + if outcomes[n] == Err(Interrupted) then sessions[n].fuel else 0
  }

  /** Some session of the schedule fixed the days of the run that produced `content`. */
  ghost predicate RunOfSome(w: World, b: Baseline, sessions: seq<Session>, content: Baseline) {
    exists k | 0 <= k < |sessions| ::
      && b.watermark.Some? && FrozenDates(b, sessions[k].settings, sessions[k].today).Ok?
      && Some(content) == SingleRun(w, b, FrozenDates(b, sessions[k].settings, sessions[k].today).value)
  }

  ghost predicate FixedBySome(sessions: seq<Session>, scope: Option<Scope>) {
    scope.Some? ==>
      exists k | 0 <= k < |sessions| :: sessions[k].settings == scope.value.settings && sessions[k].today == scope.value.today
  }

  /** At most one session commits, and none ends with a refusal that only a damaged checkpoint could cause. */
  ghost predicate OutcomesSound(outcomes: seq<Result<bool, Stop>>, commits: nat) {
    && commits <= 1
    && (commits == 1 <==> exists k | 0 <= k < |outcomes| :: outcomes[k] == Ok(true))
    && (forall j, k | 0 <= j < k < |outcomes| :: !(outcomes[j] == Ok(true) && outcomes[k] == Ok(true)))
    && (forall k | 0 <= k < |outcomes| && outcomes[k].Err? ::
          outcomes[k].error !in {DiffMissing, DiffChanged, PlanChanged, StationChanged, StationMissing})
  }

  lemma OutcomeAdded(outcomes: seq<Result<bool, Stop>>, r: Result<bool, Stop>, before: nat, after: nat)
    requires OutcomesSound(outcomes, before)
    requires r == Ok(true) ==> before == 0 && after == 1
    requires r != Ok(true) ==> after == before
    requires r.Err? ==> r.error !in {DiffMissing, DiffChanged, PlanChanged, StationChanged, StationMissing}
    ensures OutcomesSound(outcomes + [r], after)
  {
    var all := outcomes + [r];
    if r == Ok(true) {
      assert all[|outcomes|] == Ok(true);
    }
    if before == 1 {
      var k :| 0 <= k < |outcomes| && outcomes[k] == Ok(true);
      assert all[k] == Ok(true);
    }
  }

  lemma FuelAdded(sessions: seq<Session>, outcomes: seq<Result<bool, Stop>>, s: Session, r: Result<bool, Stop>)
    requires |sessions| == |outcomes|
    ensures InterruptedFuel(sessions + [s], outcomes + [r])
            == InterruptedFuel(sessions, outcomes) + if r == Err(Interrupted) then s.fuel else 0
  {
    assert (sessions + [s])[..|sessions|] == sessions && (outcomes + [r])[..|outcomes|] == outcomes;
  }

  lemma {:induction false} TakeAllActive(g: Gathered, active: set<Station>, records: seq<Record>)
    requires g.changed <= active && g.obs.Keys <= active
    ensures TakeAll(g, active, records).changed <= active && TakeAll(g, active, records).obs.Keys <= active
    decreases |records|
  {
    if records != [] {
      TakeAllActive(Take(g, active, records[0]), active, records[1..]);
    }
  }

  lemma {:induction false} GatherActive(w: World, active: set<Station>, g: Gathered, intervals: seq<Interval>)
    requires g.changed <= active && g.obs.Keys <= active
    ensures Gather(w, active, g, intervals).changed <= active && Gather(w, active, g, intervals).obs.Keys <= active
    decreases |intervals|
  {
    if intervals != [] {
      var records := w.parse(intervals[0].content);
      TakeAllActive(g, active, records);
      GatherActive(w, active, TakeAll(g, active, records), intervals[1..]);
    }
  }

  /** Only active stations are ever recomputed. */
  lemma PlanWithinActive(w: World, b: Baseline, dates: seq<Day>)
    requires b.watermark.Some?
    ensures ThePlan(w, b, dates).stations <= b.active
  {
    GatherActive(w, b.active, NOTHING, Walk(w.diff, b.watermark.value, dates).intervals);
    hide Gather, Walk, Asked;
  }

  /** Over all sessions together there are at most 34 durable steps and one for each active station. */
  lemma WorkBound(w: World, b: Baseline, m: Memory, content: Baseline, commits: nat)
    requires Consistent(w, b, m, content, commits)
    ensures Work(m, commits) <= 34 + |b.active|
  {
    if m.scope.Some? {
      WorkIsBounded(w, b, m, content, commits);
      var x := m.scope.value;
      var dates := FrozenDates(b, x.settings, x.today).value;
      PendingWindow(b.watermark, x.settings.days, x.settings.lag, x.today);
      PlanWithinActive(w, b, dates);
      SubsetSize(ThePlan(w, b, dates).stations, b.active);
    }
  }

  lemma ScopeFixed(sessions: seq<Session>, s: Session, before: Option<Scope>, after: Option<Scope>)
    requires FixedBySome(sessions, before)
    requires if before.Some? then after == before
             else after.Some? ==> after.value.settings == s.settings && after.value.today == s.today
    ensures FixedBySome(sessions + [s], after)
  {
    var all := sessions + [s];
    if before.Some? {
      var k :| 0 <= k < |sessions| && sessions[k].settings == before.value.settings && sessions[k].today == before.value.today;
      assert all[k] == sessions[k];
    } else if after.Some? {
      assert all[|sessions|] == s;
    }
  }

  lemma ScheduleConcludes(w: World, b: Baseline, sessions: seq<Session>, m: Memory, content: Baseline, commits: nat)
    requires Consistent(w, b, m, content, commits) && FixedBySome(sessions, m.scope)
    ensures commits == 0 ==> content == b
    ensures commits == 1 ==> RunOfSome(w, b, sessions, content) && content != b
  {
    if m.scope.Some? {
      ConsistentScope(w, b, m, content, commits);
    }
    hide SingleRun, PendingDates, Sound;
  }

  /** The state of a schedule after `sessions`. */
  ghost predicate Going(w: World, b: Baseline, sessions: seq<Session>, outcomes: seq<Result<bool, Stop>>,
                        m: Memory, content: Baseline, commits: nat)
  {
    && |outcomes| == |sessions|
    && Consistent(w, b, m, content, commits) && FixedBySome(sessions, m.scope)
    && OutcomesSound(outcomes, commits) && InterruptedFuel(sessions, outcomes) <= Work(m, commits)
  }

  lemma GoingBegins(w: World, b: Baseline)
    ensures Going(w, b, [], [], FRESH, b, 0)
  {
  }

  lemma GoingStep(w: World, b: Baseline, sessions: seq<Session>, outcomes: seq<Result<bool, Stop>>, m: Memory, content: Baseline,
                  commits: nat, s: Session, r: Result<bool, Stop>, left: nat, m': Memory, content': Baseline, commits': nat)
    requires Going(w, b, sessions, outcomes, m, content, commits)
    requires Consistent(w, b, m', content', commits')
    requires r == Ok(true) ==> commits == 0 && commits' == 1
    requires r != Ok(true) ==> commits' == commits
    requires r.Err? ==> SessionExplained(w, b, m.scope, content, commits, s, r.error, left)
    requires if m.scope.Some? then m'.scope == m.scope
             else m'.scope.Some? ==> m'.scope.value.settings == s.settings && m'.scope.value.today == s.today
    requires Work(m', commits') + left == Work(m, commits) + s.fuel && left <= s.fuel
    ensures Going(w, b, sessions + [s], outcomes + [r], m', content', commits')
  {
    assert r.Err? ==> r.error !in {DiffMissing, DiffChanged, PlanChanged, StationChanged, StationMissing};
    assert r == Err(Interrupted) ==> left == 0;
    hide Consistent, OutcomesSound, InterruptedFuel, Work, FixedBySome, SessionExplained;
    FuelAdded(sessions, outcomes, s, r);
    OutcomeAdded(outcomes, r, commits, commits');
    ScopeFixed(sessions, s, m.scope, m'.scope);
  }

  /** MAIN RESULT. For every schedule of sessions, dying anywhere, on any days and with any settings, the baseline ends
      untouched or equal to the result of one uninterrupted run over the days that one of them fixed, committed
      exactly once; and the steps that interrupted sessions may waste are bounded. */
  method RunSchedule(w: World, b: Baseline, sessions: seq<Session>)
    returns (content: Baseline, commits: nat, outcomes: seq<Result<bool, Stop>>)
    ensures |outcomes| == |sessions| && OutcomesSound(outcomes, commits)
    ensures commits == 0 ==> content == b
    ensures commits == 1 ==> RunOfSome(w, b, sessions, content) && content != b
    ensures InterruptedFuel(sessions, outcomes) <= 34 + |b.active|
  {
    var cp := new Checkpoint();
    var db := new Database(b);
    outcomes := [];
    assert sessions[..0] == [];
    GoingBegins(w, b);
    for i := 0 to |sessions|
      invariant fresh(cp) && fresh(db) && |outcomes| == i
      invariant Going(w, b, sessions[..i], outcomes, cp.Tables(), db.content, db.commits)
    {
      ghost var m, before, commits0 := cp.Tables(), db.content, db.commits;
      assert m.scope == cp.scope && Consistent(w, b, m, before, commits0);
      hide Going, Consistent, Work, SessionExplained;
      var r, left := RunSession(cp, db, w, b, sessions[i]);
      ghost var m' := cp.Tables();
      assert m'.scope == cp.scope;
      GoingStep(w, b, sessions[..i], outcomes, m, before, commits0, sessions[i], r, left, m', db.content, db.commits);
      assert sessions[..i + 1] == sessions[..i] + [sessions[i]];
      outcomes := outcomes + [r];
    }
    content, commits := db.content, db.commits;
    assert sessions[..|sessions|] == sessions;
    WorkBound(w, b, cp.Tables(), content, commits);
    ScheduleConcludes(w, b, sessions, cp.Tables(), content, commits);
  }
}
