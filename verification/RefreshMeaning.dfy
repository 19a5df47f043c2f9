/** What the single run of a refresh commits, told from the rows of the diffs it found and the archive. */
module RefreshMeaning {
  import opened Common
  import opened Watermark
  import opened Scheduler
  import opened Refresh

  /** All rows of some diffs, in the order in which they are read. */
  function AllRows(w: World, intervals: seq<Interval>): seq<Record>
    decreases |intervals|
  {
    if intervals == [] then [] else w.parse(intervals[0].content) + AllRows(w, intervals[1..])
  }

  lemma {:induction false} InAllRows(w: World, intervals: seq<Interval>, r: Record)
    ensures r in AllRows(w, intervals) <==> exists x | x in intervals :: r in w.parse(x.content)
    decreases |intervals|
  {
    if intervals != [] {
      InAllRows(w, intervals[1..], r);
      assert intervals == [intervals[0]] + intervals[1..];
    }
  }

  /** The observations that the rows of one station bring, in order; a row that changes old values brings none. */
  function NewObs(rows: seq<Record>, s: Station): seq<Obs>
    decreases |rows|
  {
    if rows == [] then []
    else
      var r := rows[0];
      (if r.station == s && !r.changes && r.obs.Some? then [r.obs.value] else []) + NewObs(rows[1..], s)
  }

  lemma {:induction false} NewObsAppend(a: seq<Record>, b: seq<Record>, s: Station)
    ensures NewObs(a + b, s) == NewObs(a, s) + NewObs(b, s)
    decreases |a|
  {
    if a == [] {
      assert a + b == b;
    } else {
      assert (a + b)[1..] == a[1..] + b;
      NewObsAppend(a[1..], b, s);
    }
  }

  /** Some row of an active station says that its old values changed. */
  ghost predicate Changed(rows: seq<Record>, active: set<Station>, s: Station) {
    s in active && exists r | r in rows :: r.station == s && r.changes
  }

  /** The collection holds exactly what these rows say. */
  ghost predicate Reads(g: Gathered, active: set<Station>, rows: seq<Record>) {
    && (forall s :: s in g.changed <==> Changed(rows, active, s))
    && (forall s :: s in g.obs <==> s in active && NewObs(rows, s) != [])
    && (forall s | s in g.obs :: g.obs[s] == NewObs(rows, s))
  }

  lemma TakeReads(g: Gathered, active: set<Station>, rows: seq<Record>, r: Record)
    requires Reads(g, active, rows)
    ensures Reads(Take(g, active, r), active, rows + [r])
  {
    var all := rows + [r];
    forall s ensures NewObs(all, s) == if r.station == s && !r.changes && r.obs.Some? then NewObs(rows, s) + [r.obs.value]
                                       else NewObs(rows, s)
    {
      NewObsAppend(rows, [r], s);
      assert [r][1..] == [];
    }
    forall s ensures Changed(all, active, s) <==> Changed(rows, active, s) || (s in active && r.station == s && r.changes) {
      if Changed(rows, active, s) {
        var x :| x in rows && x.station == s && x.changes;
        assert x in all;
      }
      if s in active && r.station == s && r.changes {
        assert r in all;
      }
    }
    hide Changed, NewObs;
  }

  lemma {:induction false} TakeAllReads(g: Gathered, active: set<Station>, rows: seq<Record>, more: seq<Record>)
    requires Reads(g, active, rows)
    ensures Reads(TakeAll(g, active, more), active, rows + more)
    decreases |more|
  {
    hide Reads, Take;
    if more == [] {
      assert rows + more == rows;
    } else {
      TakeReads(g, active, rows, more[0]);
      assert rows + [more[0]] + more[1..] == rows + more;
      TakeAllReads(Take(g, active, more[0]), active, rows + [more[0]], more[1..]);
    }
  }

  lemma {:induction false} GatherReads(w: World, active: set<Station>, g: Gathered, rows: seq<Record>, intervals: seq<Interval>)
    requires Reads(g, active, rows)
    ensures Reads(Gather(w, active, g, intervals), active, rows + AllRows(w, intervals))
    decreases |intervals|
  {
    hide Reads, TakeAll;
    if intervals == [] {
      assert rows + [] == rows;
    } else {
      var first, rest := w.parse(intervals[0].content), AllRows(w, intervals[1..]);
      TakeAllReads(g, active, rows, first);
      assert rows + first + rest == rows + (first + rest);
      GatherReads(w, active, TakeAll(g, active, first), rows + first, intervals[1..]);
    }
  }

  /** MAIN RESULT. A refresh recomputes for their changes exactly the active stations of which some diff of the walk
      has an update or delete row, and collects for each active station exactly the observations of its
      other rows, in the order of the diffs and of the rows in them. */
  lemma CollectedExactly(w: World, b: Baseline, dates: seq<Day>)
    requires b.watermark.Some?
    ensures var g, found := Collected(w, b, dates), Walk(w.diff, b.watermark.value, dates).intervals;
      && (forall s :: s in g.changed <==>
            (s in b.active && exists x, r | x in found && r in w.parse(x.content) :: r.station == s && r.changes))
      && (forall s :: s in g.obs <==> s in b.active && NewObs(AllRows(w, found), s) != [])
      && (forall s | s in g.obs :: g.obs[s] == NewObs(AllRows(w, found), s))
  {
    var found := Walk(w.diff, b.watermark.value, dates).intervals;
    assert Reads(NOTHING, b.active, []);
    GatherReads(w, b.active, NOTHING, [], found);
    var rows := AllRows(w, found);
    assert [] + rows == rows;
    hide Walk, Gather, AllRows, NewObs;
    forall s ensures Changed(rows, b.active, s) <==>
      (s in b.active && exists x, r | x in found && r in w.parse(x.content) :: r.station == s && r.changes)
    {
      forall r ensures r in rows <==> exists x | x in found :: r in w.parse(x.content) {
        InAllRows(w, found, r);
      }
    }
  }

  /** Rows of an active station that make its whole archive be read again: an update or delete, or a first
      observation where there are no thresholds to patch. */
  ghost predicate Recomputed(b: Baseline, rows: seq<Record>, s: Station) {
    Changed(rows, b.active, s) || (s in b.active && NewObs(rows, s) != [] && s !in b.thresholds)
  }

  /** What the refresh leaves a station with. */
  ghost predicate LeftWith(w: World, b: Baseline, rows: seq<Record>, cutoff: Day, s: Station, t: Thresholds) {
    if Recomputed(b, rows, s) then w.archive(s, cutoff) == Some(t)
    else
      && s in b.thresholds
      && var more := if s in b.active then NewObs(rows, s) else [];
         t == if more != [] && w.patch(b.thresholds[s], more).Some? then w.patch(b.thresholds[s], more).value
              else b.thresholds[s]
  }

  /** MAIN RESULT. What the single run commits, if it commits: the watermark of the last diff it found, and for
      every station with a changing row its archived thresholds as of that day; all others keep theirs, patched
      where they have new observations. */
  lemma SingleRunMeans(w: World, b: Baseline, dates: seq<Day>)
    requires b.watermark.Some? && SingleRun(w, b, dates).Some?
    ensures var after, walked := SingleRun(w, b, dates).value, Walk(w.diff, b.watermark.value, dates);
      var rows := AllRows(w, walked.intervals);
      && after.watermark == Some(walked.cursor) && after.active == b.active
      && (forall s :: s in after.thresholds <==> s in b.thresholds || Recomputed(b, rows, s))
      && (forall s | s in after.thresholds :: LeftWith(w, b, rows, walked.cursor, s, after.thresholds[s]))
  {
    var walked := Walk(w.diff, b.watermark.value, dates);
    var rows := AllRows(w, walked.intervals);
    RecomputedExactly(w, b, dates);
    CollectedExactly(w, b, dates);
    hide Walk, Collected, AllRows, NewObs, Recomputed;
  }

  /** The plan names exactly the stations to recompute. */
  lemma RecomputedExactly(w: World, b: Baseline, dates: seq<Day>)
    requires b.watermark.Some?
    ensures forall s :: s in ThePlan(w, b, dates).stations
              <==> Recomputed(b, AllRows(w, Walk(w.diff, b.watermark.value, dates).intervals), s)
  {
    var found := Walk(w.diff, b.watermark.value, dates).intervals;
    assert Reads(NOTHING, b.active, []);
    GatherReads(w, b.active, NOTHING, [], found);
    assert [] + AllRows(w, found) == AllRows(w, found);
    hide Walk, Gather, AllRows, NewObs, Changed, Asked;
  }

  /** MAIN RESULT. When the single run commits nothing: some probe of the walk came to an empty diff, no diff was
      found, or the archive of a station to recompute is missing, is of another station, carries no
      checksum or ends at another day. */
  lemma SingleRunRefusesExactly(w: World, b: Baseline, dates: seq<Day>)
    requires b.watermark.Some?
    ensures var walked := Walk(w.diff, b.watermark.value, dates);
      SingleRun(w, b, dates).None? <==>
        (walked.empty || walked.intervals == []
         || exists s | Recomputed(b, AllRows(w, walked.intervals), s) ::
              match w.archive(s, walked.cursor)
              case None => true
              case Some(t) => t.station != s || !t.sealed || t.cutoff != walked.cursor)
  {
    RecomputedExactly(w, b, dates);
    hide Walk, AllRows, Recomputed, NewThresholds, Collected, Asked;
  }
}
