/** One threshold refresh that can be interrupted anywhere and restarted. This module says what a single
    uninterrupted run would commit, and what a checkpoint may hold on the way there. */
module Refresh {
  import opened Common
  import opened Watermark
  import opened Scheduler

  type Obs = string

  /** One row of a diff; `changes` holds for update and delete rows. */
  datatype Record = Record(station: Station, changes: bool, obs: Option<Obs>)

  /** What was computed for one station; `sealed` says that it carries the checksum of its source. */
  datatype Thresholds = Thresholds(station: Station, values: string, sealed: bool, cutoff: Day)

  /** The remote answers, fixed for the whole refresh, and the parsing and patching functions. */
  datatype World = World(
    diff: Archive,
    parse: Payload -> seq<Record>,
    archive: (Station, Day) -> Option<Thresholds>,
    patch: (Thresholds, seq<Obs>) -> Option<Thresholds>)

  datatype Baseline = Baseline(watermark: Option<Day>, active: set<Station>, thresholds: map<Station, Thresholds>)

  // ----- what the diffs say

  datatype Gathered = Gathered(obs: map<Station, seq<Obs>>, changed: set<Station>)

  function Take(g: Gathered, active: set<Station>, r: Record): Gathered {
    if r.station !in active then g
    else if r.changes then g.(changed := g.changed + {r.station})
    else if r.obs.None? then g
    else
      var known := if r.station in g.obs then g.obs[r.station] else [];
      g.(obs := g.obs[r.station := known + [r.obs.value]])
  }

  function TakeAll(g: Gathered, active: set<Station>, records: seq<Record>): Gathered
    decreases |records|
  {
    if records == [] then g else TakeAll(Take(g, active, records[0]), active, records[1..])
  }

  function Gather(w: World, active: set<Station>, g: Gathered, intervals: seq<Interval>): Gathered
    decreases |intervals|
  {
    if intervals == [] then g
    else Gather(w, active, TakeAll(g, active, w.parse(intervals[0].content)), intervals[1..])
  }

  const NOTHING := Gathered(map[], {})

  // ----- one uninterrupted run

  type Question = (Day, Day)

  /** What the sealed plan fixes: the cutoff, the stations to recompute and every diff answer. */
  datatype Plan = Plan(cutoff: Day, stations: set<Station>, diffs: map<Question, Option<Payload>>)

  /** Changed stations, and those with new observations but nothing to patch. */
  function Needed(b: Baseline, g: Gathered): set<Station> {
    g.changed + set s | s in g.obs && s !in b.thresholds
  }

  function Answers(w: World, asked: seq<Question>): map<Question, Option<Payload>> {
    map q | q in asked :: w.diff(q.0, q.1)
  }

  function Collected(w: World, b: Baseline, dates: seq<Day>): Gathered
    requires b.watermark.Some?
  {
    Gather(w, b.active, NOTHING, Walk(w.diff, b.watermark.value, dates).intervals)
  }

  function ThePlan(w: World, b: Baseline, dates: seq<Day>): Plan
    requires b.watermark.Some?
  {
    Plan(Walk(w.diff, b.watermark.value, dates).cursor, Needed(b, Collected(w, b, dates)),
         Answers(w, Asked(w.diff, b.watermark.value, dates)))
  }

  /** The walk connected something and ran into no empty diff. */
  predicate Walkable(w: World, b: Baseline, dates: seq<Day>)
    requires b.watermark.Some?
  {
    var walked := Walk(w.diff, b.watermark.value, dates);
    !walked.empty && walked.intervals != []
  }

  /** The archive of this station gives thresholds that may be kept. */
  predicate Keepable(w: World, s: Station, cutoff: Day) {
    var t := w.archive(s, cutoff);
    t.Some? && t.value.station == s && t.value.sealed && t.value.cutoff == cutoff
  }

  /** The thresholds after the refresh: recomputed stations from their archives, the others patched. */
  function NewThresholds(w: World, b: Baseline, cutoff: Day, stations: set<Station>, obs: map<Station, seq<Obs>>)
    : (t: map<Station, Thresholds>)
    requires forall s | s in stations :: w.archive(s, cutoff).Some?
  {
    map s | s in b.thresholds.Keys + stations ::
      if s in stations then w.archive(s, cutoff).value
      else if s in obs && w.patch(b.thresholds[s], obs[s]).Some? then w.patch(b.thresholds[s], obs[s]).value
      else b.thresholds[s]
  }

  /** What one run without any interruption commits, if it commits. */
  function SingleRun(w: World, b: Baseline, dates: seq<Day>): Option<Baseline>
    requires b.watermark.Some?
  {
    if !Walkable(w, b, dates) then None
    else
      var p := ThePlan(w, b, dates);
      if forall s | s in p.stations :: Keepable(w, s, p.cutoff)
      then Some(Baseline(Some(p.cutoff), b.active, NewThresholds(w, b, p.cutoff, p.stations, Collected(w, b, dates).obs)))
      else None
  }

  // ----- what a checkpoint holds

  /** A recorded answer and its digest. A digest stands for the content it fixes. */
  datatype StoredDiff = StoredDiff(payload: Option<Payload>, digest: Option<Payload>)

  datatype Seal = Seal(plan: Option<Plan>, station: Station, values: Option<Thresholds>)

  /** `inputs` are the identities of the files, program files among them, that the refresh depends on. */
  datatype Settings = Settings(days: int, lag: int, inputs: string)

  datatype Scope = Scope(baseline: Baseline, settings: Settings, today: Day)

  /** The tables of the checkpoint. */
  datatype Memory = Memory(
    diffs: map<Question, StoredDiff>,
    plan: Option<Plan>,
    results: map<Station, Thresholds>,
    seals: map<Station, Seal>,
    scope: Option<Scope>)

  const FRESH := Memory(map[], None, map[], map[], None)

  /** Every recorded answer is the one of this archive, with its digest. */
  ghost predicate Truthful(diff: Archive, diffs: map<Question, StoredDiff>) {
    forall q | q in diffs :: diffs[q] == StoredDiff(diff(q.0, q.1), diff(q.0, q.1))
  }

  /** Every recorded answer is the true one to a question of the one walk. */
  ghost predicate SoundDiffs(w: World, asked: seq<Question>, diffs: map<Question, StoredDiff>) {
    Truthful(w.diff, diffs) && forall q | q in diffs :: q in asked
  }

  ghost predicate SoundStations(w: World, m: Memory) {
    && m.results.Keys == m.seals.Keys
    && (m.plan.None? ==> m.seals == map[])
    && forall s | s in m.seals ::
         && s in m.plan.value.stations && Keepable(w, s, m.plan.value.cutoff)
         && m.results[s] == w.archive(s, m.plan.value.cutoff).value
         && m.seals[s] == Seal(m.plan, s, Some(m.results[s]))
  }

  ghost predicate Sound(w: World, b: Baseline, dates: seq<Day>, m: Memory)
    requires b.watermark.Some?
  {
    var asked := Asked(w.diff, b.watermark.value, dates);
    && SoundDiffs(w, asked, m.diffs)
    && SoundStations(w, m)
    && (m.plan.Some? ==>
          Walkable(w, b, dates) && m.plan.value == ThePlan(w, b, dates) && forall q | q in asked :: q in m.diffs)
  }

  /** The days that a scope fixes. */
  function FrozenDates(b: Baseline, settings: Settings, today: Day): Result<seq<Day>, Refusal> {
    PendingDates(b.watermark, settings.days, settings.lag, today)
  }

  /** In every reachable state the baseline is untouched, or it is what the single run for the frozen days
      commits, and then it was committed once. */
  ghost predicate Consistent(w: World, b: Baseline, m: Memory, content: Baseline, commits: nat) {
    match m.scope
    case None => m == FRESH && content == b && commits == 0
    case Some(scope) =>
      && scope.baseline == b
      && FrozenDates(b, scope.settings, scope.today).Ok?
      && b.watermark.Some?
      && var dates := FrozenDates(b, scope.settings, scope.today).value;
         && Sound(w, b, dates, m)
         && (if commits == 0 then content == b else commits == 1 && Some(content) == SingleRun(w, b, dates))
  }

  /** Durable steps taken so far. */
  function Work(m: Memory, commits: nat): nat {
    |m.diffs| + |m.seals| + (if m.plan.Some? then 1 else 0) + (if m.scope.Some? then 1 else 0) + commits
  }

  // ----- facts about the specification

  lemma AskedSize(asked: seq<Question>, keys: set<Question>)
    requires forall q | q in keys :: q in asked
    ensures |keys| <= |asked|
    decreases |asked|
  {
    if asked == [] {
      assert keys == {};
    } else {
      AskedSize(asked[1..], keys - {asked[0]});
      if asked[0] in keys {
        assert keys == (keys - {asked[0]}) + {asked[0]};
      } else {
        assert keys - {asked[0]} == keys;
      }
    }
  }

  lemma SealsWithin(w: World, b: Baseline, dates: seq<Day>, m: Memory)
    requires b.watermark.Some? && Sound(w, b, dates, m)
    ensures m.seals.Keys <= ThePlan(w, b, dates).stations
  {
    hide Walk, Keepable, Walkable, Asked, ThePlan;
    forall s | s in m.seals.Keys ensures s in ThePlan(w, b, dates).stations {
      assert s in m.seals && m.plan.Some?;
    }
  }

  /** There is a last durable step: interruptions cannot go on for ever. */
  lemma WorkIsBounded(w: World, b: Baseline, m: Memory, content: Baseline, commits: nat)
    requires Consistent(w, b, m, content, commits) && m.scope.Some?
    ensures var dates := FrozenDates(b, m.scope.value.settings, m.scope.value.today).value;
            Work(m, commits) <= 3 + |dates| + |ThePlan(w, b, dates).stations|
  {
    var dates := FrozenDates(b, m.scope.value.settings, m.scope.value.today).value;
    var asked := Asked(w.diff, b.watermark.value, dates);
    assert Sound(w, b, dates, m);
    SealsWithin(w, b, dates, m);
    hide Walk, SingleRun, Keepable, Walkable, ThePlan;
    AskedSize(asked, m.diffs.Keys);
    SubsetSize(m.seals.Keys, ThePlan(w, b, dates).stations);
    assert |m.diffs| == |m.diffs.Keys| && |m.seals| == |m.seals.Keys|;
  }

  /** A committed refresh moves the watermark on, so the baseline it leaves is a different one. */
  lemma RunMovesOn(w: World, b: Baseline, settings: Settings, today: Day)
    requires b.watermark.Some? && FrozenDates(b, settings, today).Ok?
    requires SingleRun(w, b, FrozenDates(b, settings, today).value).Some?
    ensures var after := SingleRun(w, b, FrozenDates(b, settings, today).value).value;
            && after.watermark.Some? && b.watermark.value < after.watermark.value <= today - settings.lag
            && after != b
  {
    var dates := FrozenDates(b, settings, today).value;
    PendingWindow(b.watermark, settings.days, settings.lag, today);
    WalkResolves(w.diff, b.watermark.value, dates);
    hide NewThresholds, Keepable, Walk, Asked;
  }
}
