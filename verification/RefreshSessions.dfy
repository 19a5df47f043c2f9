/** The sessions of a refresh: each opens the checkpoint, goes as far as its luck allows and either dies, refuses
    or commits. MAIN RESULT: every schedule of sessions refines one uninterrupted run. */
module RefreshSessions {
  import opened Common
  import opened Watermark
  import opened Ordered
  import opened Scheduler
  import opened Refresh
  import opened RefreshCheckpoint

  // ----- the full station results

  function Without(order: seq<Station>, done: set<Station>): (rest: seq<Station>)
    ensures forall s :: s in rest <==> s in order && s !in done
  {
    if order == [] then []
    else (if order[0] in done then [] else [order[0]]) + Without(order[1..], done)
  }

  lemma {:induction false} WithoutDistinct(order: seq<Station>, done: set<Station>)
    requires NoRepeats(order)
    ensures NoRepeats(Without(order, done))
  {
    if order != [] {
      WithoutDistinct(order[1..], done);
    }
  }

  lemma SealHolds(w: World, m: Memory, s: Station)
    requires SoundStations(w, m) && s in m.seals
    ensures s in m.results && m.seals[s] == Seal(m.plan, s, Some(m.results[s]))
    ensures m.plan.Some? && s in m.plan.value.stations && Keepable(w, s, m.plan.value.cutoff)
    ensures m.results[s] == w.archive(s, m.plan.value.cutoff).value
  {
    hide Keepable;
  }

  /** The stations whose results are not recorded yet. No recorded one is ever refused. */
  method Remaining(cp: Checkpoint, ghost w: World, order: seq<Station>) returns (r: Result<seq<Station>, Stop>)
    requires SoundStations(w, cp.Tables())
    ensures r == Ok(Without(order, cp.seals.Keys))
  {
    var rest := [];
    assert order[..0] == [] && Without([], cp.seals.Keys) == [];
    for i := 0 to |order|
      invariant rest == Without(order[..i], cp.seals.Keys)
    {
      var done := cp.Completed(order[i]);
      if order[i] in cp.seals {
        SealHolds(w, cp.Tables(), order[i]);
      }
      assert done.Ok?;
      WithoutAppend(order[..i], order[i], cp.seals.Keys);
      assert order[..i + 1] == order[..i] + [order[i]];
      if done.value.None? {
        rest := rest + [order[i]];
      }
    }
    assert order[..|order|] == order;
    r := Ok(rest);
  }

  lemma {:induction false} WithoutAppend(order: seq<Station>, s: Station, done: set<Station>)
    ensures Without(order + [s], done) == Without(order, done) + if s in done then [] else [s]
  {
    if order == [] {
      assert [s][1..] == [];
      assert order + [s] == [s];
    } else {
      assert (order + [s])[1..] == order[1..] + [s];
      WithoutAppend(order[1..], s, done);
    }
  }

  lemma SaveIsSound(w: World, m: Memory, s: Station)
    requires SoundStations(w, m) && m.plan.Some? && s in m.plan.value.stations && Keepable(w, s, m.plan.value.cutoff)
    ensures var t := w.archive(s, m.plan.value.cutoff).value;
            SoundStations(w, m.(results := m.results[s := t], seals := m.seals[s := Seal(m.plan, s, Some(t))]))
  {
  }

  /** The loop that records a full result for each remaining station, in order. */
  method CollectStations(cp: Checkpoint, w: World, cutoff: Day, remaining: seq<Station>, fuel: nat)
    returns (r: Option<Stop>, left: nat)
    requires SoundStations(w, cp.Tables()) && cp.plan.Some? && cp.plan.value.cutoff == cutoff
    requires NoRepeats(remaining) && forall s | s in remaining :: s in cp.plan.value.stations && s !in cp.seals
    modifies cp`results, cp`seals
    ensures SoundStations(w, cp.Tables()) && |cp.seals| + left == |old(cp.seals)| + fuel && left <= fuel
    ensures old(cp.seals.Keys) <= cp.seals.Keys
    ensures r.None? ==> forall s | s in remaining :: s in cp.seals
    ensures r.Some? ==>
              || (r.value == Interrupted && left == 0)
              || (r.value in {StationUnusable, ArchiveUnbound} && exists s | s in cp.plan.value.stations :: !Keepable(w, s, cutoff))
  {
    left := fuel;
    forall j | 0 <= j < |remaining| ensures remaining[j] !in cp.seals {
      var s := remaining[j];
      assert s in remaining;
    }
    for i := 0 to |remaining|
      invariant SoundStations(w, cp.Tables()) && |cp.seals| + left == |old(cp.seals)| + fuel && left <= fuel
      invariant old(cp.seals.Keys) <= cp.seals.Keys
      invariant forall j | 0 <= j < i :: remaining[j] in cp.seals
      invariant forall j | i <= j < |remaining| :: remaining[j] !in cp.seals
    {
      var s := remaining[i];
      assert s in remaining;
      var result := w.archive(s, cutoff);
      if result.None? || result.value.station != s {
        assert !Keepable(w, s, cutoff);
        return Some(StationUnusable), left;
      }
      ghost var m := cp.Tables();
      if Keepable(w, s, cutoff) {
        SaveIsSound(w, m, s);
      }
      hide SoundStations, NoRepeats;
      r, left := cp.Save(result.value, cutoff, left);
      if r.Some? {
        assert cp.Tables() == m;
        return r, left;
      }
      assert cp.Tables() == m.(results := m.results[s := result.value], seals := m.seals[s := Seal(m.plan, s, Some(result.value))]);
    }
    r := None;
  }

  // ----- the one commit

  type Table = map<Station, Thresholds>

  /** The stations in `done` have their archived results, the others what they had. */
  ghost predicate Replaced(w: World, before: Table, cutoff: Day, done: set<Station>, t: Table) {
    && t.Keys == before.Keys + done
    && forall s | s in t :: if s in done then w.archive(s, cutoff) == Some(t[s]) else t[s] == before[s]
  }

  function Members(order: seq<Station>): set<Station> { set s | s in order }

  /** The first loop of the transaction: recorded results replace the old thresholds. Every result is there and
      passes its seal, so neither of the two refusals can happen. */
  method UpsertRecorded(cp: Checkpoint, ghost w: World, before: Table, order: seq<Station>) returns (t: Table)
    requires SoundStations(w, cp.Tables()) && cp.plan.Some? && forall s | s in order :: s in cp.seals
    ensures Replaced(w, before, cp.plan.value.cutoff, Members(order), t)
  {
    t := before;
    for i := 0 to |order|
      invariant Replaced(w, before, cp.plan.value.cutoff, Members(order[..i]), t)
    {
      var s := order[i];
      assert s in order;
      SealHolds(w, cp.Tables(), s);
      assert w.archive(s, cp.plan.value.cutoff) == Some(cp.results[s]) by {
        assert Keepable(w, s, cp.plan.value.cutoff);
      }
      hide SoundStations, Keepable;
      var done := cp.Completed(s);
      assert done == Ok(Some(cp.results[s]));
      assert Members(order[..i + 1]) == Members(order[..i]) + {s};
      t := t[s := done.value.value];
    }
    assert order[..|order|] == order;
  }

  /** The patched value of a station that is not recomputed. */
  function PatchedValue(w: World, known: Thresholds, obs: seq<Obs>): Thresholds {
    if w.patch(known, obs).Some? then w.patch(known, obs).value else known
  }

  ghost predicate PatchedSoFar(w: World, before: Table, cutoff: Day, stations: set<Station>, obs: map<Station, seq<Obs>>,
                               done: set<Station>, t: Table) {
    && t.Keys == before.Keys + stations
    && forall s | s in t ::
         if s in stations then w.archive(s, cutoff) == Some(t[s])
         else if s in obs && s in done then t[s] == PatchedValue(w, before[s], obs[s])
         else t[s] == before[s]
  }

  /** The second loop of the transaction: stations with only new observations are patched. Each of them has
      old thresholds, so no archive is fetched here. */
  method PatchObserved(w: World, ghost before: Table, ghost cutoff: Day, stations: set<Station>,
                       obs: map<Station, seq<Obs>>, order: seq<Station>, t0: Table) returns (t: Table)
    requires Replaced(w, before, cutoff, stations, t0)
    requires NoRepeats(order) && Members(order) == obs.Keys
    requires forall s | s in obs && s !in stations :: s in before
    ensures PatchedSoFar(w, before, cutoff, stations, obs, obs.Keys, t)
  {
    t := t0;
    for i := 0 to |order|
      invariant PatchedSoFar(w, before, cutoff, stations, obs, Members(order[..i]), t)
    {
      var s := order[i];
      assert s in order && s in Members(order) && s !in Members(order[..i]);
      assert Members(order[..i + 1]) == Members(order[..i]) + {s};
      if s in stations {
        continue;
      }
      var changed := w.patch(t[s], obs[s]);
      if changed.Some? {
        t := t[s := changed.value];
      }
    }
    assert order[..|order|] == order;
  }

  lemma PatchedIsNew(w: World, b: Baseline, cutoff: Day, stations: set<Station>, obs: map<Station, seq<Obs>>, t: Table)
    requires PatchedSoFar(w, b.thresholds, cutoff, stations, obs, obs.Keys, t)
    requires forall s | s in stations :: Keepable(w, s, cutoff)
    ensures t == NewThresholds(w, b, cutoff, stations, obs)
  {
    var n := NewThresholds(w, b, cutoff, stations, obs);
    assert t.Keys == n.Keys;
    forall s | s in t ensures t[s] == n[s] {
    }
  }

  /** The transaction on the working database: verify, upsert, patch, move the watermark, commit once. */
  method Commit(cp: Checkpoint, db: Database, w: World, found: Baseline, inputsChanged: bool, cutoff: Day,
                stations: seq<Station>, obs: map<Station, seq<Obs>>, fuel: nat)
    returns (r: Result<bool, Stop>, left: nat)
    requires SoundStations(w, cp.Tables()) && cp.plan.Some? && cp.plan.value.cutoff == cutoff
    requires Members(stations) == cp.plan.value.stations && forall s | s in stations :: s in cp.seals
    requires forall s | s in obs && s !in stations :: s in found.thresholds
    requires db.content == found
    modifies db
    ensures r.Ok? ==>
              && r.value && left == fuel - 1 && db.commits == old(db.commits) + 1
              && (forall s | s in cp.plan.value.stations :: Keepable(w, s, cutoff))
              && db.content == Baseline(Some(cutoff), found.active,
                                        NewThresholds(w, found, cutoff, cp.plan.value.stations, obs))
    ensures r.Err? ==> left == fuel && db.content == old(db.content) && db.commits == old(db.commits)
    ensures r.Err? ==> (r.error == ScopeChanged && inputsChanged) || (r.error == Interrupted && left == 0)
  {
    left := fuel;
    if db.content != found || inputsChanged {
      return Err(ScopeChanged), left;
    }
    forall s | s in cp.plan.value.stations ensures Keepable(w, s, cutoff) {
      assert s in Members(stations);
      SealHolds(w, cp.Tables(), s);
    }
    var table := UpsertRecorded(cp, w, db.content.thresholds, stations);
    hide SoundStations, Keepable, Replaced, PatchedSoFar, NewThresholds;
    var order := Ascending(obs.Keys);
    AscendingSorts(obs.Keys);
    assert Members(order) == obs.Keys;
    var t := PatchObserved(w, found.thresholds, cutoff, Members(stations), obs, order, table);
    PatchedIsNew(w, found, cutoff, cp.plan.value.stations, obs, t);
    if fuel == 0 {
      return Err(Interrupted), 0;
    }
    db.content := Baseline(Some(cutoff), db.content.active, t);
    db.commits := db.commits + 1;
    return Ok(true), fuel - 1;
  }

  // ----- one session

  /** Why a session may end without a commit; no other refusal can be reached. */
  predicate Explained(w: World, b: Baseline, dates: seq<Day>, e: Stop, left: nat, inputsChanged: bool)
    requires b.watermark.Some?
  {
    match e
    case Interrupted => left == 0
    case EmptyDiff | NoInterval => !Walkable(w, b, dates)
    case StationUnusable | ArchiveUnbound => SingleRun(w, b, dates).None?
    case ScopeChanged => inputsChanged
    case _ => false
  }

  /** The three ways a session that reached the update may end. */
  predicate Concluded(w: World, b: Baseline, dates: seq<Day>, r: Result<bool, Stop>, left: nat, inputsChanged: bool,
                      content: Baseline, commits: nat)
    requires b.watermark.Some?
  {
    match r
    case Ok(true) => commits == 1 && Some(content) == SingleRun(w, b, dates)
    case Ok(false) => dates == [] && commits == 0 && content == b
    case Err(e) => commits == 0 && content == b && Explained(w, b, dates, e, left, inputsChanged)
  }

  /** What is recorded after a whole walk is exactly what the plan fixes. */
  lemma PlanIsDetermined(w: World, b: Baseline, dates: seq<Day>, diffs: map<Question, StoredDiff>)
    requires b.watermark.Some?
    requires var asked := Asked(w.diff, b.watermark.value, dates); SoundDiffs(w, asked, diffs) && Recorded(asked, diffs)
    ensures (map q | q in diffs :: diffs[q].digest) == Answers(w, Asked(w.diff, b.watermark.value, dates))
  {
    hide Asked;
  }

  lemma SoundParts(w: World, b: Baseline, dates: seq<Day>, m: Memory)
    requires b.watermark.Some?
    ensures var asked := Asked(w.diff, b.watermark.value, dates);
            Sound(w, b, dates, m) <==>
              && SoundDiffs(w, asked, m.diffs) && SoundStations(w, m)
              && (m.plan.Some? ==> Walkable(w, b, dates) && m.plan.value == ThePlan(w, b, dates) && Recorded(asked, m.diffs))
  {
    hide SoundDiffs, SoundStations, Asked, ThePlan, Walkable;
  }

  lemma NewPlanIsSound(w: World, m: Memory, p: Plan)
    requires SoundStations(w, m) && m.plan.None?
    ensures SoundStations(w, m.(plan := Some(p)))
  {
  }

  function Bound(plan: Option<Plan>): nat { if plan.Some? then 1 else 0 }

  /** `bind_plan` after a whole walk: the seal is that of the single run, and an earlier seal was the same. */
  method Bind(cp: Checkpoint, w: World, ghost b: Baseline, ghost dates: seq<Day>, cutoff: Day, stations: set<Station>, fuel: nat)
    returns (r: Option<Stop>, left: nat)
    requires b.watermark.Some? && Sound(w, b, dates, cp.Tables()) && Walkable(w, b, dates)
    requires Recorded(Asked(w.diff, b.watermark.value, dates), cp.diffs)
    requires cutoff == ThePlan(w, b, dates).cutoff && stations == ThePlan(w, b, dates).stations
    modifies cp`plan
    ensures Sound(w, b, dates, cp.Tables())
    ensures r.None? ==> cp.plan == Some(ThePlan(w, b, dates))
    ensures r.Some? ==> r.value == Interrupted && left == 0
    ensures Bound(cp.plan) + left == Bound(old(cp.plan)) + fuel && left <= fuel
  {
    ghost var m, p := cp.Tables(), ThePlan(w, b, dates);
    SoundParts(w, b, dates, m);
    PlanIsDetermined(w, b, dates, cp.diffs);
    assert p == Plan(cutoff, stations, map q | q in cp.diffs :: cp.diffs[q].digest);
    if m.plan.None? {
      NewPlanIsSound(w, m, p);
      SoundParts(w, b, dates, m.(plan := Some(p)));
    }
    hide Sound, SoundDiffs, SoundStations, Walkable, ThePlan, Asked, Recorded;
    r, left := cp.BindPlan(cutoff, stations, fuel);
    assert cp.Tables() == m.(plan := cp.plan);
  }

  lemma SealedResultsStaySound(w: World, b: Baseline, dates: seq<Day>, m: Memory, n: Memory)
    requires b.watermark.Some? && Sound(w, b, dates, m) && SoundStations(w, n)
    requires n.diffs == m.diffs && n.plan == m.plan
    ensures Sound(w, b, dates, n)
  {
    SoundParts(w, b, dates, m);
    SoundParts(w, b, dates, n);
    hide Sound, SoundDiffs, SoundStations, Walkable, ThePlan, Asked, Recorded;
  }

  lemma RunCommits(w: World, b: Baseline, dates: seq<Day>)
    requires b.watermark.Some? && Walkable(w, b, dates)
    ensures var p := ThePlan(w, b, dates);
            if forall s | s in p.stations :: Keepable(w, s, p.cutoff)
            then SingleRun(w, b, dates) ==
                   Some(Baseline(Some(p.cutoff), b.active,
                                 NewThresholds(w, b, p.cutoff, p.stations, Collected(w, b, dates).obs)))
            else SingleRun(w, b, dates).None?
  {
    hide Walkable, ThePlan, NewThresholds, Collected;
    assert forall s, c | Keepable(w, s, c) :: w.archive(s, c).Some?;
    hide Keepable;
  }

  /** The results still missing are fetched in station order and recorded. */
  method CollectMissing(cp: Checkpoint, w: World, cutoff: Day, order: seq<Station>, fuel: nat)
    returns (r: Option<Stop>, left: nat)
    requires SoundStations(w, cp.Tables()) && cp.plan.Some? && cp.plan.value.cutoff == cutoff
    requires NoRepeats(order) && forall s | s in order :: s in cp.plan.value.stations
    modifies cp`results, cp`seals
    ensures SoundStations(w, cp.Tables()) && |cp.seals| + left == |old(cp.seals)| + fuel && left <= fuel
    ensures r.None? ==> forall s | s in order :: s in cp.seals
    ensures r.Some? ==>
              || (r.value == Interrupted && left == 0)
              || (r.value in {StationUnusable, ArchiveUnbound} && exists s | s in cp.plan.value.stations :: !Keepable(w, s, cutoff))
  {
    var rest := Remaining(cp, w, order);
    WithoutDistinct(order, cp.seals.Keys);
    hide SoundStations, NoRepeats, Keepable;
    assert rest.Ok?;
    r, left := CollectStations(cp, w, cutoff, rest.value, fuel);
  }

  /** From a bound plan to the end: the missing station results, then the one commit. */
  method Finish(cp: Checkpoint, db: Database, w: World, b: Baseline, ghost dates: seq<Day>, inputsChanged: bool,
                cutoff: Day, needed: set<Station>, obs: map<Station, seq<Obs>>, fuel: nat)
    returns (r: Result<bool, Stop>, left: nat)
    requires b.watermark.Some? && Sound(w, b, dates, cp.Tables()) && Walkable(w, b, dates)
    requires cp.plan == Some(ThePlan(w, b, dates))
    requires cutoff == ThePlan(w, b, dates).cutoff && needed == ThePlan(w, b, dates).stations
    requires obs == Collected(w, b, dates).obs && forall s | s in obs && s !in needed :: s in b.thresholds
    requires db.content == b && db.commits == 0
    modifies cp`results, cp`seals, db
    ensures Sound(w, b, dates, cp.Tables())
    ensures Concluded(w, b, dates, r, left, inputsChanged, db.content, db.commits)
    ensures |cp.seals| + db.commits + left == |old(cp.seals)| + fuel && left <= fuel
  {
    ghost var m := Memory(cp.diffs, cp.plan, cp.results, cp.seals, cp.scope);
    assert cp.Tables() == m;
    SoundParts(w, b, dates, m);
    var order := Ascending(needed);
    NeededOrder(needed);
    hide *;
    var saved;
    saved, left := CollectMissing(cp, w, cutoff, order, fuel);
    TablesKept(cp, w, b, dates, m);
    if saved.Some? {
      StationConcludes(w, b, dates, saved.value, left, inputsChanged);
      return Err(saved.value), left;
    }
    r, left := Commit(cp, db, w, b, inputsChanged, cutoff, order, obs, left);
    CommitConcludes(w, b, dates, r, left, inputsChanged, db.content, db.commits);
  }

  lemma NeededOrder(needed: set<Station>)
    ensures var order := Ascending(needed); NoRepeats(order) && Members(order) == needed && forall s :: s in order <==> s in needed
  {
    AscendingSorts(needed);
    var order := Ascending(needed);
    assert forall s :: s in order <==> s in needed;
    assert NoRepeats(order);
    hide Ascending;
  }

  lemma TablesKept(cp: Checkpoint, w: World, b: Baseline, dates: seq<Day>, m: Memory)
    requires b.watermark.Some? && Sound(w, b, dates, m) && SoundStations(w, cp.Tables())
    requires cp.diffs == m.diffs && cp.plan == m.plan
    ensures Sound(w, b, dates, cp.Tables())
  {
    SealedResultsStaySound(w, b, dates, m, cp.Tables());
  }

  lemma StationConcludes(w: World, b: Baseline, dates: seq<Day>, e: Stop, left: nat, inputsChanged: bool)
    requires b.watermark.Some? && Walkable(w, b, dates)
    requires (e == Interrupted && left == 0) || (e in {StationUnusable, ArchiveUnbound}
               && exists s | s in ThePlan(w, b, dates).stations :: !Keepable(w, s, ThePlan(w, b, dates).cutoff))
    ensures Concluded(w, b, dates, Err(e), left, inputsChanged, b, 0)
  {
    RunCommits(w, b, dates);
    hide SingleRun, Walkable, ThePlan, Keepable, Collected, NewThresholds;
  }

  lemma CommitConcludes(w: World, b: Baseline, dates: seq<Day>, r: Result<bool, Stop>, left: nat, inputsChanged: bool,
                        content: Baseline, commits: nat)
    requires b.watermark.Some? && Walkable(w, b, dates)
    requires r.Ok? ==>
               var p := ThePlan(w, b, dates);
               && r.value && commits == 1 && (forall s | s in p.stations :: Keepable(w, s, p.cutoff))
               && (forall s | s in p.stations :: w.archive(s, p.cutoff).Some?)
               && content == Baseline(Some(p.cutoff), b.active,
                                      NewThresholds(w, b, p.cutoff, p.stations, Collected(w, b, dates).obs))
    requires r.Err? ==> content == b && commits == 0
    requires r.Err? ==> (r.error == ScopeChanged && inputsChanged) || (r.error == Interrupted && left == 0)
    ensures Concluded(w, b, dates, r, left, inputsChanged, content, commits)
  {
    RunCommits(w, b, dates);
    hide SingleRun, Walkable, ThePlan, Keepable, Collected, NewThresholds;
  }

  /** The transaction when the diffs bring nothing new: only the watermark moves. */
  method CommitWatermark(db: Database, found: Baseline, inputsChanged: bool, cutoff: Day, fuel: nat)
    returns (r: Result<bool, Stop>, left: nat)
    requires db.content == found
    modifies db
    ensures r.Ok? ==>
              && r.value && left == fuel - 1 && db.commits == old(db.commits) + 1
              && db.content == found.(watermark := Some(cutoff))
    ensures r.Err? ==> left == fuel && db.content == old(db.content) && db.commits == old(db.commits)
    ensures r.Err? ==> (r.error == ScopeChanged && inputsChanged) || (r.error == Interrupted && left == 0)
  {
    if db.content != found || inputsChanged {
      return Err(ScopeChanged), fuel;
    }
    if fuel == 0 {
      return Err(Interrupted), 0;
    }
    db.content := db.content.(watermark := Some(cutoff));
    db.commits := db.commits + 1;
    return Ok(true), fuel - 1;
  }

  lemma NothingNew(w: World, b: Baseline, dates: seq<Day>, obs: map<Station, seq<Obs>>, cutoff: Day)
    requires obs == map[]
    ensures NewThresholds(w, b, cutoff, {}, obs) == b.thresholds
  {
  }

  /** What the loop of `_update` leaves to the rest of it. */
  lemma ExploredPlan(w: World, b: Baseline, dates: seq<Day>, diffs: map<Question, StoredDiff>, g: Gathered,
                     intervals: seq<Interval>)
    requires b.watermark.Some? && Ascend(b.watermark.value, dates)
    requires WalkEnded(w, b.active, b.watermark.value, dates, diffs, intervals, g)
    ensures g == Collected(w, b, dates) && Recorded(Asked(w.diff, b.watermark.value, dates), diffs)
    ensures var cutoff := Resolve(intervals, b.watermark.value, b.watermark.value);
            && (cutoff == b.watermark.value <==> !Walkable(w, b, dates))
            && ThePlan(w, b, dates).cutoff == cutoff && ThePlan(w, b, dates).stations == Needed(b, g)
  {
    WalkResolves(w.diff, b.watermark.value, dates);
    hide Walk, Gather, Resolve, Asked, Ascend, Recorded;
  }

  lemma NeededCovers(b: Baseline, g: Gathered)
    ensures forall s | s in g.obs && s !in Needed(b, g) :: s in b.thresholds
    ensures g.obs == map[] && g.changed == {} ==> Needed(b, g) == {}
  {
  }

  /** `_update` after the loop: resolve the watermark, bind the plan, collect, commit. */
  method Complete(cp: Checkpoint, db: Database, w: World, b: Baseline, ghost dates: seq<Day>, inputsChanged: bool,
                  g: Gathered, intervals: seq<Interval>, fuel: nat)
    returns (r: Result<bool, Stop>, left: nat)
    requires b.watermark.Some? && Ascend(b.watermark.value, dates)
    requires Sound(w, b, dates, cp.Tables()) && WalkEnded(w, b.active, b.watermark.value, dates, cp.diffs, intervals, g)
    requires db.content == b && db.commits == 0
    modifies cp`plan, cp`results, cp`seals, db
    ensures Sound(w, b, dates, cp.Tables())
    ensures Concluded(w, b, dates, r, left, inputsChanged, db.content, db.commits)
    ensures |cp.seals| + Bound(cp.plan) + db.commits + left == |old(cp.seals)| + Bound(old(cp.plan)) + fuel && left <= fuel
  {
    left := fuel;
    var cutoff := ResolveNewWatermark(intervals, b.watermark);
    ExploredPlan(w, b, dates, cp.diffs, g, intervals);
    NeededCovers(b, g);
    if cutoff.value == b.watermark.value {
      assert Concluded(w, b, dates, Err(NoInterval), left, inputsChanged, b, 0);
      return Err(NoInterval), left;
    }
    var needed := g.changed + set s | s in g.obs && s !in db.content.thresholds;
    assert needed == Needed(b, g);
    hide *;
    var bound;
    bound, left := Bind(cp, w, b, dates, cutoff.value, needed, left);
    if bound.Some? {
      StationConcludes(w, b, dates, bound.value, left, inputsChanged);
      return Err(bound.value), left;
    }
    if g.obs == map[] && g.changed == {} {
      r, left := CommitWatermark(db, b, inputsChanged, cutoff.value, left);
      NothingNew(w, b, dates, g.obs, cutoff.value);
      CommitConcludes(w, b, dates, r, left, inputsChanged, db.content, db.commits);
    } else {
      r, left := Finish(cp, db, w, b, dates, inputsChanged, cutoff.value, needed, g.obs, left);
    }
  }
}
