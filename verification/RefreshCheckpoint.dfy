/** The checkpoint, the working database and the sessions that use them. Every method may stop where the
    original can fail: `fuel` counts the durable steps that still succeed before the process dies. */
module RefreshCheckpoint {
  import opened Common
  import opened Watermark
  import opened Scheduler
  import opened Refresh

  datatype Stop =
    | Interrupted
    | Dates(refusal: Refusal)
    | FutureDate
    | ScopeChanged
    | DiffMissing
    | DiffChanged
    | EmptyDiff
    | NoInterval
    | PlanChanged
    | StationChanged
    | StationMissing
    | StationUnusable
    | ArchiveUnbound

  /** The working baseline file; `commits` counts the transactions that changed it. */
  class Database {
    var content: Baseline
    var commits: nat

    constructor (b: Baseline)
      ensures content == b && commits == 0
    {
      content, commits := b, 0;
    }
  }

  class Checkpoint {
    var diffs: map<Question, StoredDiff>
    var plan: Option<Plan>
    var results: map<Station, Thresholds>
    var seals: map<Station, Seal>
    var scope: Option<Scope>

    ghost function Tables(): Memory
      reads this
    {
      Memory(diffs, plan, results, seals, scope)
    }

    constructor ()
      ensures Tables() == FRESH
    {
      diffs, plan, results, seals, scope := map[], None, map[], map[], None;
    }

    /** `open_checkpoint`: the first one fixes the scope and the day, later ones must find the same scope. */
    method Open(baseline: Baseline, settings: Settings, today: Day, fuel: nat) returns (r: Result<Day, Stop>, left: nat)
      modifies `scope
      ensures old(scope) == None && fuel == 0 ==> r == Err(Interrupted) && left == 0 && scope == None
      ensures old(scope) == None && fuel > 0 ==>
                r == Ok(today) && left == fuel - 1 && scope == Some(Scope(baseline, settings, today))
      ensures old(scope).Some? ==> scope == old(scope) && left == fuel
      ensures old(scope).Some? ==>
                r == if old(scope).value.baseline == baseline && old(scope).value.settings == settings
                     then Ok(old(scope).value.today) else Err(ScopeChanged)
    {
      left := fuel;
      var saved := if scope.Some? then scope.value.today else today;
      var now := Scope(baseline, settings, saved);
      if scope == None {
        if fuel == 0 {
          return Err(Interrupted), 0;
        }
        scope := Some(now);
        left := fuel - 1;
      } else if scope.value != now {
        return Err(ScopeChanged), left;
      }
      r := Ok(saved);
    }

    /** `diff`: an answer is fetched once, recorded, and from then on read back. */
    method Diff(start: Day, end: Day, w: World, fuel: nat) returns (r: Result<Option<Payload>, Stop>, left: nat)
      modifies `diffs
      ensures var q := (start, end);
              if q in old(diffs) then
                && diffs == old(diffs) && left == fuel
                && r == (if diffs[q].payload == diffs[q].digest then Ok(diffs[q].payload) else Err(DiffChanged))
              else if plan.Some? then diffs == old(diffs) && left == fuel && r == Err(DiffMissing)
              else if fuel == 0 then diffs == old(diffs) && left == 0 && r == Err(Interrupted)
              else
                && r == Ok(w.diff(start, end)) && left == fuel - 1
                && diffs == old(diffs)[q := StoredDiff(w.diff(start, end), w.diff(start, end))]
    {
      left := fuel;
      var key := (start, end);
      if key !in diffs {
        if plan.Some? {
          return Err(DiffMissing), left;
        }
        if fuel == 0 {
          return Err(Interrupted), 0;
        }
        var payload := w.diff(start, end);
        diffs := diffs[key := StoredDiff(payload, payload)];
        return Ok(payload), fuel - 1;
      }
      if diffs[key].payload != diffs[key].digest {
        return Err(DiffChanged), left;
      }
      r := Ok(diffs[key].payload);
    }

    /** `bind_plan`: seals the cutoff, the stations and every recorded answer; a second seal must be the same. */
    method BindPlan(cutoff: Day, stations: set<Station>, fuel: nat) returns (r: Option<Stop>, left: nat)
      modifies `plan
      ensures var now := Plan(cutoff, stations, map q | q in diffs :: diffs[q].digest);
              if old(plan).None? then
                if fuel == 0 then plan == None && r == Some(Interrupted) && left == 0
                else plan == Some(now) && r == None && left == fuel - 1
              else plan == old(plan) && left == fuel && r == (if plan == Some(now) then None else Some(PlanChanged))
    {
      left := fuel;
      var now := Plan(cutoff, stations, map q | q in diffs :: diffs[q].digest);
      if plan.Some? {
        return if plan.value != now then Some(PlanChanged) else None, left;
      }
      if fuel == 0 {
        return Some(Interrupted), 0;
      }
      plan := Some(now);
      return None, fuel - 1;
    }

    /** `_station_seal` */
    function StationSeal(s: Station): Seal
      reads this
    {
      Seal(plan, s, if s in results then Some(results[s]) else None)
    }

    /** `completed`: the result recorded for a station, if one is. */
    method Completed(s: Station) returns (r: Result<Option<Thresholds>, Stop>)
      ensures r == if s !in seals then Ok(None)
                   else if seals[s] != StationSeal(s) then Err(StationChanged)
                   else if s !in results then Err(StationMissing)
                   else Ok(Some(results[s]))
    {
      if s !in seals {
        return Ok(None);
      }
      if seals[s] != StationSeal(s) {
        return Err(StationChanged);
      }
      if s !in results {
        return Err(StationMissing);
      }
      r := Ok(Some(results[s]));
    }

    /** `save`: the result and its seal in one transaction. */
    method Save(result: Thresholds, cutoff: Day, fuel: nat) returns (r: Option<Stop>, left: nat)
      modifies `results, `seals
      ensures if !result.sealed || result.cutoff != cutoff then
                r == Some(ArchiveUnbound) && left == fuel && results == old(results) && seals == old(seals)
              else if fuel == 0 then
                r == Some(Interrupted) && left == 0 && results == old(results) && seals == old(seals)
              else
                && r == None && left == fuel - 1 && results == old(results)[result.station := result]
                && seals == old(seals)[result.station := Seal(plan, result.station, Some(result))]
    {
      if !result.sealed || result.cutoff != cutoff {
        return Some(ArchiveUnbound), fuel;
      }
      if fuel == 0 {
        return Some(Interrupted), 0;
      }
      results := results[result.station := result];
      seals := seals[result.station := StationSeal(result.station)];
      return None, fuel - 1;
    }
  }

  /** The inner loop of the walk: what the rows of one diff add. */
  method TakeRecords(g0: Gathered, active: set<Station>, records: seq<Record>) returns (g: Gathered)
    ensures g == TakeAll(g0, active, records)
  {
    g := g0;
    for i := 0 to |records|
      invariant TakeAll(g, active, records[i..]) == TakeAll(g0, active, records)
    {
      var r := records[i];
      assert records[i..][0] == r && records[i..][1..] == records[i + 1..];
      if r.station !in active {
        continue;
      }
      if r.changes {
        g := g.(changed := g.changed + {r.station});
        continue;
      }
      if r.obs.Some? {
        var known := if r.station in g.obs then g.obs[r.station] else [];
        g := g.(obs := g.obs[r.station := known + [r.obs.value]]);
      }
    }
  }

  // ----- the walk, with its answers memoised

  ghost predicate Recorded(asked: seq<Question>, diffs: map<Question, StoredDiff>) {
    forall q | q in asked :: q in diffs
  }

  /** The archive as a refresh with this checkpoint sees it: what is recorded, and behind that the remote. */
  function Behind(diffs: map<Question, StoredDiff>, remote: Archive): Archive {
    (start, end) => if (start, end) in diffs then diffs[(start, end)].payload else remote(start, end)
  }

  /** `v` is the world so seen, while `w` has what the remote answers now. */
  ghost predicate Seen(v: World, w: World, diffs: map<Question, StoredDiff>) {
    && Truthful(v.diff, diffs) && v.parse == w.parse
    && forall q: Question | q !in diffs :: v.diff(q.0, q.1) == w.diff(q.0, q.1)
  }

  /** With digests intact any checkpoint can be seen so, whatever the remote answers now. */
  lemma SeenBehind(w: World, diffs: map<Question, StoredDiff>)
    requires forall q | q in diffs :: diffs[q].payload == diffs[q].digest
    ensures Seen(w.(diff := Behind(diffs, w.diff)), w, diffs)
  {
  }

  /** The records alone lead to an empty diff, and the remote is not asked on the way. */
  ghost predicate Stuck(diffs: map<Question, StoredDiff>, start: Day, dates: seq<Day>) {
    var recorded := Behind(diffs, (_, _) => None);
    Walk(recorded, start, dates).empty && Recorded(Asked(recorded, start, dates), diffs)
  }

  lemma StuckExactly(v: World, diffs: map<Question, StoredDiff>, start: Day, dates: seq<Day>)
    requires Truthful(v.diff, diffs)
    ensures Stuck(diffs, start, dates) <==> Walk(v.diff, start, dates).empty && Recorded(Asked(v.diff, start, dates), diffs)
  {
    var recorded := Behind(diffs, (_, _) => None);
    assert forall q | q in diffs :: recorded(q.0, q.1) == v.diff(q.0, q.1);
    hide Walk, Asked;
    if Recorded(Asked(recorded, start, dates), diffs) {
      WalkAgrees(recorded, v.diff, start, dates);
    }
    if Recorded(Asked(v.diff, start, dates), diffs) {
      WalkAgrees(v.diff, recorded, start, dates);
    }
  }

  lemma AskedStep(w: World, cursor: Day, dates: seq<Day>, i: nat)
    requires i < |dates|
    ensures var here := Asked(w.diff, cursor, dates[i..]);
            && here != [] && here[0] == (cursor, dates[i])
            && here[1..] == (match w.diff(cursor, dates[i])
                             case None => Asked(w.diff, cursor, dates[i + 1..])
                             case Some(c) => if c == [] then [] else Asked(w.diff, dates[i], dates[i + 1..]))
  {
    assert dates[i..][0] == dates[i] && dates[i..][1..] == dates[i + 1..];
  }

  lemma WalkStep(w: World, cursor: Day, dates: seq<Day>, i: nat)
    requires i < |dates|
    ensures Walk(w.diff, cursor, dates[i..]) ==
            match w.diff(cursor, dates[i])
            case None => Walk(w.diff, cursor, dates[i + 1..])
            case Some(c) =>
              if c == [] then Walked([], cursor, true)
              else
                var rest := Walk(w.diff, dates[i], dates[i + 1..]);
                rest.(intervals := [Interval(cursor, dates[i], c)] + rest.intervals)
  {
    assert dates[i..][0] == dates[i] && dates[i..][1..] == dates[i + 1..];
  }

  lemma GatherStep(w: World, active: set<Station>, g: Gathered, x: Interval, rest: seq<Interval>)
    ensures Gather(w, active, g, [x] + rest) == Gather(w, active, TakeAll(g, active, w.parse(x.content)), rest)
  {
    assert ([x] + rest)[1..] == rest;
    hide TakeAll;
  }

  /** How a walk that has come as far as `cursor` relates to the whole one. */
  ghost predicate Underway(w: World, active: set<Station>, start: Day, dates: seq<Day>, i: nat,
                           intervals: seq<Interval>, cursor: Day, g: Gathered)
    requires i <= |dates|
  {
    var whole, rest := Walk(w.diff, start, dates), Walk(w.diff, cursor, dates[i..]);
    && whole == Walked(intervals + rest.intervals, rest.cursor, rest.empty)
    && Gather(w, active, g, rest.intervals) == Gather(w, active, NOTHING, whole.intervals)
  }

  lemma UnderwayStep(w: World, active: set<Station>, start: Day, dates: seq<Day>, i: nat,
                     intervals: seq<Interval>, cursor: Day, g: Gathered)
    requires i < |dates| && Underway(w, active, start, dates, i, intervals, cursor, g)
    ensures var found := w.diff(cursor, dates[i]);
            && (found.None? ==> Underway(w, active, start, dates, i + 1, intervals, cursor, g))
            && (found.Some? && found.value == [] ==> Walk(w.diff, start, dates).empty)
            && (found.Some? && found.value != [] ==>
                  Underway(w, active, start, dates, i + 1, intervals + [Interval(cursor, dates[i], found.value)], dates[i],
                           TakeAll(g, active, w.parse(found.value))))
  {
    WalkStep(w, cursor, dates, i);
    var found := w.diff(cursor, dates[i]);
    if found.Some? && found.value != [] {
      var x := Interval(cursor, dates[i], found.value);
      var rest := Walk(w.diff, dates[i], dates[i + 1..]);
      GatherStep(w, active, g, x, rest.intervals);
      assert intervals + ([x] + rest.intervals) == (intervals + [x]) + rest.intervals;
    }
    hide Walk, Gather, TakeAll;
  }

  /** The whole walk was made: every question is recorded, and these are its intervals and observations. */
  ghost predicate WalkEnded(w: World, active: set<Station>, start: Day, dates: seq<Day>, diffs: map<Question, StoredDiff>,
                            intervals: seq<Interval>, g: Gathered)
  {
    && Walk(w.diff, start, dates).intervals == intervals && !Walk(w.diff, start, dates).empty
    && Recorded(Asked(w.diff, start, dates), diffs)
    && g == Gather(w, active, NOTHING, intervals)
  }

  /** Why a walk may end early. */
  ghost predicate WalkStopped(w: World, start: Day, dates: seq<Day>, diffs: map<Question, StoredDiff>, e: Stop, left: nat) {
    || (e == EmptyDiff && Walk(w.diff, start, dates).empty && Recorded(Asked(w.diff, start, dates), diffs))
    || (e == Interrupted && left == 0)
  }

  /** Everything recorded is a true answer of the walk, and what the walk still has to ask is all that is missing. */
  ghost predicate RecordedSoFar(w: World, start: Day, dates: seq<Day>, i: nat, cursor: Day, diffs: map<Question, StoredDiff>)
    requires i <= |dates|
  {
    var all, rest := Asked(w.diff, start, dates), Asked(w.diff, cursor, dates[i..]);
    && Truthful(w.diff, diffs)
    && (forall q | q in rest :: q in all)
    && (forall q | q in all :: q in diffs || q in rest)
  }

  /** A recorded answer is the true one; recording a true one leads on. */
  lemma RecordedStep(w: World, start: Day, dates: seq<Day>, i: nat, cursor: Day, diffs: map<Question, StoredDiff>)
    requires i < |dates| && RecordedSoFar(w, start, dates, i, cursor, diffs)
    ensures var q := (cursor, dates[i]);
            var found := w.diff(cursor, dates[i]);
            var more := if q in diffs then diffs else diffs[q := StoredDiff(found, found)];
            && q in Asked(w.diff, start, dates)
            && more[q] == StoredDiff(found, found) && Truthful(w.diff, more)
            && (found == Some([]) ==> Recorded(Asked(w.diff, start, dates), more))
            && (found.None? ==> RecordedSoFar(w, start, dates, i + 1, cursor, more))
            && (found.Some? && found.value != [] ==> RecordedSoFar(w, start, dates, i + 1, dates[i], more))
  {
    AskedStep(w, cursor, dates, i);
    var here := Asked(w.diff, cursor, dates[i..]);
    assert here == [here[0]] + here[1..];
    hide Asked;
  }

  /** How the loop stands after `i` days. */
  ghost predicate OnWalk(w: World, active: set<Station>, start: Day, dates: seq<Day>, i: nat, intervals: seq<Interval>,
                         cursor: Day, g: Gathered, diffs: map<Question, StoredDiff>)
    requires i <= |dates|
  {
    Underway(w, active, start, dates, i, intervals, cursor, g) && RecordedSoFar(w, start, dates, i, cursor, diffs)
  }

  lemma WalkBegins(w: World, active: set<Station>, start: Day, dates: seq<Day>, diffs: map<Question, StoredDiff>)
    requires Truthful(w.diff, diffs)
    ensures OnWalk(w, active, start, dates, 0, [], start, NOTHING, diffs)
  {
    assert dates[0..] == dates;
    hide Walk, Asked, Gather, Truthful;
  }

  /** What one refresh may add: answers of the remote to questions of the walk. */
  ghost predicate Grown(v: World, w: World, start: Day, dates: seq<Day>, before: map<Question, StoredDiff>,
                        after: map<Question, StoredDiff>)
  {
    Seen(v, w, after) && forall q | q in after :: q in before || q in Asked(v.diff, start, dates)
  }

  lemma GrownStep(v: World, w: World, start: Day, dates: seq<Day>, before: map<Question, StoredDiff>,
                  diffs: map<Question, StoredDiff>, q: Question)
    requires Grown(v, w, start, dates, before, diffs) && q in Asked(v.diff, start, dates)
    ensures q !in diffs ==> w.diff(q.0, q.1) == v.diff(q.0, q.1)
    ensures q !in diffs ==> Grown(v, w, start, dates, before, diffs[q := StoredDiff(w.diff(q.0, q.1), w.diff(q.0, q.1))])
  {
    hide Asked;
  }

  /** One turn of the loop up to its answer. */
  method Ask(cp: Checkpoint, w: World, ghost v: World, ghost active: set<Station>, ghost start: Day, dates: seq<Day>, i: nat,
             ghost intervals: seq<Interval>, cursor: Day, ghost g: Gathered, ghost before: map<Question, StoredDiff>, fuel: nat)
    returns (r: Result<Option<Payload>, Stop>, left: nat)
    requires i < |dates| && OnWalk(v, active, start, dates, i, intervals, cursor, g, cp.diffs)
    requires Grown(v, w, start, dates, before, cp.diffs)
    requires cp.plan.Some? ==> Recorded(Asked(v.diff, start, dates), cp.diffs)
    modifies cp`diffs
    ensures Grown(v, w, start, dates, before, cp.diffs)
    ensures cp.plan.Some? || Recorded(Asked(v.diff, start, dates), old(cp.diffs)) ==>
              cp.diffs == old(cp.diffs) && left == fuel && r.Ok?
    ensures |cp.diffs| + left == |old(cp.diffs)| + fuel && left <= fuel
    ensures r.Err? ==> r.error == Interrupted && left == 0
    ensures r.Ok? ==>
              var end, found := dates[i], r.value;
              && (found.None? ==> OnWalk(v, active, start, dates, i + 1, intervals, cursor, g, cp.diffs))
              && (found.Some? && found.value == [] ==> WalkStopped(v, start, dates, cp.diffs, EmptyDiff, left))
              && (found.Some? && found.value != [] ==>
                    OnWalk(v, active, start, dates, i + 1, intervals + [Interval(cursor, end, found.value)], end,
                           TakeAll(g, active, w.parse(found.value)), cp.diffs))
  {
    RecordedStep(v, start, dates, i, cursor, cp.diffs);
    UnderwayStep(v, active, start, dates, i, intervals, cursor, g);
    GrownStep(v, w, start, dates, before, cp.diffs, (cursor, dates[i]));
    assert v.parse == w.parse;
    hide Seen, Grown, Truthful, Walk, Asked, Underway, RecordedSoFar, TakeAll, Gather;
    r, left := cp.Diff(cursor, dates[i], w, fuel);
  }

  /** The loop of `_update` over the pending days. `v` is the world as this checkpoint lets it be seen: recorded
      answers may differ from what the remote `w` answers now. Whatever was recorded before, the loop puts the
      questions of the one walk through `v`, records the remote's answers to those that were not, and ends
      with the intervals and observations of that walk. It stops at an empty diff without recording
      anything exactly when the records alone lead there, and once it stopped at one they do: then
      every later refresh stops there as well, whatever the remote answers by then. */
  method Explore(cp: Checkpoint, w: World, ghost v: World, start: Day, active: set<Station>, dates: seq<Day>, fuel: nat)
    returns (r: Result<Gathered, Stop>, intervals: seq<Interval>, left: nat)
    requires Seen(v, w, cp.diffs)
    requires cp.plan.Some? ==> Recorded(Asked(v.diff, start, dates), cp.diffs)
    modifies cp`diffs
    ensures Grown(v, w, start, dates, old(cp.diffs), cp.diffs)
    ensures cp.plan.Some? ==> cp.diffs == old(cp.diffs)
    ensures |cp.diffs| + left == |old(cp.diffs)| + fuel && left <= fuel
    ensures match r
            case Ok(g) => WalkEnded(v, active, start, dates, cp.diffs, intervals, g)
            case Err(e) => WalkStopped(v, start, dates, cp.diffs, e, left)
    ensures r == Err(EmptyDiff) && cp.diffs == old(cp.diffs) <==> Stuck(old(cp.diffs), start, dates)
    ensures r == Err(EmptyDiff) ==> Stuck(cp.diffs, start, dates)
  {
    ghost var before := cp.diffs;
    var cursor, g := start, NOTHING;
    intervals, left := [], fuel;
    GrownBegins(v, w, start, dates, before);
    WalkBegins(v, active, start, dates, before);
    StuckExactly(v, before, start, dates);
    hide *;
    for i := 0 to |dates|
      invariant OnWalk(v, active, start, dates, i, intervals, cursor, g, cp.diffs)
      invariant Grown(v, w, start, dates, before, cp.diffs)
      invariant cp.plan.Some? || Recorded(Asked(v.diff, start, dates), before) ==> cp.diffs == before && left == fuel
      invariant |cp.diffs| + left == |before| + fuel && left <= fuel
    {
      var answer;
      answer, left := Ask(cp, w, v, active, start, dates, i, intervals, cursor, g, before, left);
      if answer.Err? {
        StoppedFor(v, start, dates, cp.diffs, answer.error, left);
        return Err(answer.error), intervals, left;
      }
      if answer.value.None? {
        continue;
      }
      var content := answer.value.value;
      if content == [] {
        GrownTruthful(v, w, start, dates, before, cp.diffs);
        StuckExactly(v, cp.diffs, start, dates);
        StoppedFor(v, start, dates, cp.diffs, EmptyDiff, left);
        return Err(EmptyDiff), intervals, left;
      }
      var records := w.parse(content);
      intervals := intervals + [Interval(cursor, dates[i], content)];
      g := TakeRecords(g, active, records);
      cursor := dates[i];
    }
    WalkDone(v, active, start, dates, intervals, cursor, g, cp.diffs);
    r := Ok(g);
  }

  lemma GrownBegins(v: World, w: World, start: Day, dates: seq<Day>, diffs: map<Question, StoredDiff>)
    requires Seen(v, w, diffs)
    ensures Grown(v, w, start, dates, diffs, diffs) && Truthful(v.diff, diffs)
  {
    hide Asked, Truthful;
  }

  lemma GrownTruthful(v: World, w: World, start: Day, dates: seq<Day>, before: map<Question, StoredDiff>,
                      diffs: map<Question, StoredDiff>)
    requires Grown(v, w, start, dates, before, diffs)
    ensures Truthful(v.diff, diffs)
  {
    hide Asked, Truthful;
  }

  lemma StoppedFor(w: World, start: Day, dates: seq<Day>, diffs: map<Question, StoredDiff>, e: Stop, left: nat)
    ensures WalkStopped(w, start, dates, diffs, e, left) && e == EmptyDiff ==>
              Walk(w.diff, start, dates).empty && Recorded(Asked(w.diff, start, dates), diffs)
    ensures e == Interrupted && left == 0 ==> WalkStopped(w, start, dates, diffs, e, left)
  {
    hide Walk, Asked, Recorded;
  }

  lemma WalkDone(w: World, active: set<Station>, start: Day, dates: seq<Day>,
                 intervals: seq<Interval>, cursor: Day, g: Gathered, diffs: map<Question, StoredDiff>)
    requires OnWalk(w, active, start, dates, |dates|, intervals, cursor, g, diffs)
    ensures WalkEnded(w, active, start, dates, diffs, intervals, g) && !Walk(w.diff, start, dates).empty
  {
    assert dates[|dates|..] == [];
    assert intervals + [] == intervals;
    assert Walk(w.diff, cursor, []) == Walked([], cursor, false);
  }
}
