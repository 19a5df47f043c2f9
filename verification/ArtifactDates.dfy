/** When the date in the installed manifest can go back, and how an interrupted publication is completed. */
module ArtifactDates {
  import opened Common
  import opened Manifest
  import opened PublishedManifest
  import opened ArtifactProtocol

  /** The date the installed manifest carries, if it is readable and carries one. */
  function LastDay(text: string): Option<nat> {
    if Read(text).Ok? && Dated(Read(text).value) then Some(Ymd(Read(text).value["last_diff_date"])) else None
  }

  /** The date stays or rises and never goes missing; where there is none, nothing is ever published. */
  predicate NotBack(before: Option<nat>, after: Option<nat>) {
    match before
    case None => after == None
    case Some(d) => after.Some? && d <= after.value
  }

  /** The discipline: while one owner is between its second look at the manifest file and its
      replacement of it, no other owner takes its second look. */
  ghost predicate Allowed(s: Site, e: Event) {
    e.Recheck? ==> forall o | o in s.stages && s.stages[o].Rechecked? :: o == e.o
  }

  ghost predicate OneAtATime(s: Site, events: seq<Event>)
    decreases |events|
  {
    events != [] ==> Allowed(s, events[0]) && OneAtATime(Step(s, events[0]), events[1..])
  }

  ghost predicate Fresh(s: Site) {
    && (forall o | o in s.stages && s.stages[o].Rechecked? :: Read(s.text) == Ok(s.stages[o].previous))
    && (forall o, p | o in s.stages && p in s.stages && s.stages[o].Rechecked? && s.stages[p].Rechecked? :: o == p)
  }

  lemma MadeDay(release: string, db: Database)
    requires Measurable(db) && IsDay(db.lastDay) && release == "thresholds-latest"
    ensures LastDay(Text(release, db)) == Some(Ymd(db.lastDay))
  {
    InstalledReadsBack(release, db);
    MadeValues(release, db);
    hide Read, Ymd, Measurable, IsDay, Made, Text;
  }

  lemma ReplaceNotBack(s: Site, o: nat)
    requires Inv(s) && Fresh(s) && s.At(o).Rechecked?
    ensures NotBack(LastDay(s.text), LastDay(Text(Release(s.At(o).previous), s.At(o).db)))
  {
    var previous, db := s.At(o).previous, s.At(o).db;
    assert Knows(s.rows, Rechecked(previous, db)) && Read(s.text) == Ok(previous);
    assert Dated(previous) && Measurable(db) && IsDay(db.lastDay) && Checked(previous) == Ok(previous);
    assert Ymd(previous["last_diff_date"]) <= Ymd(db.lastDay);
    assert LastDay(s.text) == Some(Ymd(previous["last_diff_date"]));
    hide *;
    AcceptedRelease(previous);
    MadeDay(Release(previous), db);
    NotBackNow(Ymd(previous["last_diff_date"]), LastDay(Text(Release(previous), db)));
  }

  lemma NotBackNow(d: nat, after: Option<nat>)
    requires after.Some? && d <= after.value
    ensures NotBack(Some(d), after)
  {
  }

  /** Only a replacement writes the file, and only a second look leads to one. */
  lemma OtherStep(s: Site, e: Event)
    requires !(e.Replace? && s.At(e.o).Rechecked?)
    ensures Step(s, e).text == s.text
    ensures forall o | o in Step(s, e).stages && Step(s, e).stages[o].Rechecked? ::
              (o in s.stages && s.stages[o] == Step(s, e).stages[o])
              || (e == Recheck(o) && Read(s.text) == Ok(Step(s, e).stages[o].previous))
  {
    hide Read, NamedBy, Offered, Matches, Text, Made, Measurable, SameAs, Ymd, Dated, Keeps, IsDay;
  }

  lemma StepNotBack(s: Site, e: Event)
    requires Inv(s) && Fresh(s) && Allowed(s, e)
    ensures Fresh(Step(s, e)) && NotBack(LastDay(s.text), LastDay(Step(s, e).text))
  {
    if e.Replace? && s.At(e.o).Rechecked? {
      ReplaceNotBack(s, e.o);
      assert e == Replace(e.o);
      ReplaceStepFresh(s, e.o);
    } else {
      OtherStep(s, e);
      hide Step, Inv, Read;
    }
  }

  lemma ReplaceStepFresh(s: Site, o: nat)
    requires Fresh(s) && s.At(o).Rechecked?
    ensures Fresh(Step(s, Replace(o))) && Step(s, Replace(o)).text == Text(Release(s.At(o).previous), s.At(o).db)
  {
    hide *;
    ReplaceStep(s, o);
    var release := Release(s.At(o).previous);
    ReplaceFresh(s, o, Text(release, s.At(o).db), Finished(Made(release, s.At(o).db)));
  }

  lemma ReplaceFresh(s: Site, o: nat, text: string, done: Stage)
    requires Fresh(s) && s.At(o).Rechecked? && done.Finished?
    ensures var t := s.(text := text).Put(o, done); Fresh(t) && t.text == text
  {
    hide Read;
    assert o in s.stages && forall p | p in s.stages && s.stages[p].Rechecked? :: p == o;
  }

  lemma NotBackChains(a: Option<nat>, b: Option<nat>, c: Option<nat>)
    requires NotBack(a, b) && NotBack(b, c)
    ensures NotBack(a, c)
  {
  }

  /** MAIN RESULT. Under the discipline the installed date never goes back, over any run. */
  lemma {:induction false} DatesNeverGoBack(s: Site, events: seq<Event>)
    requires Inv(s) && Fresh(s) && OneAtATime(s, events)
    ensures NotBack(LastDay(s.text), LastDay(Run(s, events).text))
    decreases |events|
  {
    if events != [] {
      var t := Step(s, events[0]);
      StepNotBack(s, events[0]);
      StepKeeps(s, events[0]);
      hide Inv, Fresh, Step, LastDay, NotBack, Allowed;
      DatesNeverGoBack(t, events[1..]);
      NotBackChains(LastDay(s.text), LastDay(t.text), LastDay(Run(s, events).text));
    } else {
      hide Inv, Fresh, Step, LastDay, Allowed;
    }
  }

  /** One owner alone always follows the discipline. */
  lemma {:induction false} AloneIsDisciplined(s: Site, events: seq<Event>, o: nat)
    requires forall p | p in s.stages :: p == o
    requires forall e | e in events :: e.Remote? || e.o == o
    ensures OneAtATime(s, events)
    decreases |events|
  {
    if events != [] {
      assert events[0] in events;
      StaysAlone(s, events[0], o);
      hide Step;
      AloneIsDisciplined(Step(s, events[0]), events[1..], o);
    }
  }

  lemma StaysAlone(s: Site, e: Event, o: nat)
    requires (forall p | p in s.stages :: p == o) && (e.Remote? || e.o == o)
    ensures forall p | p in Step(s, e).stages :: p == o
  {
    hide Read, NamedBy, Offered, Matches, Text, Made, Measured, Looked, Keeps, Release;
  }

  // ----- what two owners can do

  /** A whole publication up to and with the second look at the manifest file, when its asset is there already. */
  function Approach(o: nat, db: Database): seq<Event> {
    [ReadPrevious(o), Measure(o, Some(db)), List(o, true), Recheck(o)]
  }

  predicate Publishable(previous: Fields, db: Database) {
    && Measurable(db) && IsDay(db.lastDay) && Dated(previous)
    && Ymd(previous["last_diff_date"]) <= Ymd(db.lastDay) && !SameAs(previous, db)
  }

  lemma LookSteps(s: Site, o: nat, db: Database, previous: Fields)
    requires Offered(s.rows, db) && |s.rows| <= MAX_ASSETS
    ensures s.At(o) == Built(previous, db) ==> Step(s, List(o, true)) == s.Put(o, Verified(previous, db))
  {
    OfferedIsFound(s.rows, db);
    hide Read, Matches, Offered, AssetName, Measured, Made, Text, NamedBy, Keeps, Release;
  }

  lemma ApproachSteps(s: Site, o: nat, db: Database, previous: Fields)
    requires Publishable(previous, db) && Offered(s.rows, db) && |s.rows| <= MAX_ASSETS
    ensures s.At(o).Idle? && Read(s.text) == Ok(previous) ==> Step(s, ReadPrevious(o)) == s.Begin(o).Put(o, Started(previous))
    ensures s.At(o) == Started(previous) ==> Step(s, Measure(o, Some(db))) == s.Put(o, Built(previous, db))
    ensures s.At(o) == Built(previous, db) ==> Step(s, List(o, true)) == s.Put(o, Verified(previous, db))
    ensures s.At(o) == Verified(previous, db) && Read(s.text) == Ok(previous)
            ==> Step(s, Recheck(o)) == s.Put(o, Rechecked(previous, db))
  {
    LookSteps(s, o, db, previous);
    PublishableBuilds(previous, db);
    hide Read, Matches, Offered, AssetName, Measured, Looked, Publishable, Made, Text, NamedBy, Keeps, Release;
  }

  lemma OfferedIsFound(rows: seq<Row>, db: Database)
    requires Offered(rows, db)
    ensures Matches(rows, AssetName(db.sha)) != []
  {
    hide Matches, AssetName;
  }

  lemma RunFirst(s: Site, e: Event, rest: seq<Event>)
    ensures Run(s, [e] + rest) == Run(Step(s, e), rest)
  {
    assert ([e] + rest)[1..] == rest;
    hide Step;
  }

  lemma PutAgain(s: Site, o: nat, first: Stage, second: Stage)
    ensures s.Put(o, first).Put(o, second) == s.Put(o, second)
  {
  }

  lemma BuiltRuns(s: Site, o: nat, db: Database, previous: Fields)
    requires s.At(o) == Built(previous, db) && Read(s.text) == Ok(previous) && Publishable(previous, db)
    requires Offered(s.rows, db) && |s.rows| <= MAX_ASSETS
    ensures Run(s, [List(o, true)] + [Recheck(o)]) == s.Put(o, Rechecked(previous, db))
  {
    hide *;
    var c := s.Put(o, Verified(previous, db));
    ApproachSteps(s, o, db, previous);
    PutParts(s, o, Verified(previous, db));
    ApproachSteps(c, o, db, previous);
    PutAgain(s, o, Verified(previous, db), Rechecked(previous, db));
    RunOne(c, Recheck(o));
    RunFirst(s, List(o, true), [Recheck(o)]);
  }

  lemma ApproachRuns(s: Site, o: nat, db: Database, previous: Fields)
    requires s.At(o).Idle? && Read(s.text) == Ok(previous) && Publishable(previous, db)
    requires Offered(s.rows, db) && |s.rows| <= MAX_ASSETS
    ensures Run(s, Approach(o, db)) == s.Begin(o).Put(o, Rechecked(previous, db))
  {
    assert Approach(o, db) == [ReadPrevious(o)] + ([Measure(o, Some(db))] + ([List(o, true)] + [Recheck(o)]));
    hide *;
    var started := s.Begin(o);
    var a := started.Put(o, Started(previous));
    var b := started.Put(o, Built(previous, db));
    BeginParts(s, o);
    ApproachSteps(s, o, db, previous);
    PutParts(started, o, Started(previous));
    ApproachSteps(a, o, db, previous);
    PutAgain(started, o, Started(previous), Built(previous, db));
    PutParts(started, o, Built(previous, db));
    BuiltRuns(b, o, db, previous);
    PutAgain(started, o, Built(previous, db), Rechecked(previous, db));
    RunFirst(a, Measure(o, Some(db)), [List(o, true)] + [Recheck(o)]);
    RunFirst(s, ReadPrevious(o), [Measure(o, Some(db))] + ([List(o, true)] + [Recheck(o)]));
  }

  lemma PublishableBuilds(previous: Fields, db: Database)
    requires Publishable(previous, db)
    ensures Measured(previous, Some(db)) == Built(previous, db)
  {
    hide Ymd, SameAs, IsSha;
  }

  lemma {:induction false} RunChains(s: Site, a: seq<Event>, b: seq<Event>)
    ensures Run(s, a + b) == Run(Run(s, a), b)
    decreases |a|
  {
    hide Step;
    if a == [] {
      assert a + b == b;
    } else {
      assert (a + b)[0] == a[0] && (a + b)[1..] == a[1..] + b;
      RunChains(Step(s, a[0]), a[1..], b);
    }
  }

  /** Without the discipline the date does go back: `early` and `late` both pass their second look, then
      `late` replaces the file and `early` replaces it again. */
  lemma TwoOwnersCanGoBack(s: Site, early: Database, late: Database, previous: Fields)
    requires s.stages == map[] && Read(s.text) == Ok(previous) && |s.rows| <= MAX_ASSETS
    requires Publishable(previous, early) && Publishable(previous, late) && Release(previous) == "thresholds-latest"
    requires Offered(s.rows, early) && Offered(s.rows, late) && Ymd(early.lastDay) < Ymd(late.lastDay)
    ensures var there := Run(s, Approach(0, early) + Approach(1, late) + [Replace(1)]);
            var back := Run(there, [Replace(0)]);
            LastDay(there.text) == Some(Ymd(late.lastDay)) && LastDay(back.text) == Some(Ymd(early.lastDay))
  {
    assert Measurable(early) && Measurable(late) && IsDay(early.lastDay) && IsDay(late.lastDay);
    assert s.At(0).Idle? && s.At(1).Idle?;
    hide *;
    MadeDay(Release(previous), early);
    MadeDay(Release(previous), late);
    ApproachRuns(s, 0, early, previous);
    var a := s.Begin(0).Put(0, Rechecked(previous, early));
    BeginParts(s, 0);
    PutParts(s.Begin(0), 0, Rechecked(previous, early));
    ApproachRuns(a, 1, late, previous);
    var b := a.Begin(1).Put(1, Rechecked(previous, late));
    BeginParts(a, 1);
    PutParts(a.Begin(1), 1, Rechecked(previous, late));
    RunChains(s, Approach(0, early), Approach(1, late));
    RunChains(s, Approach(0, early) + Approach(1, late), [Replace(1)]);
    RunOne(b, Replace(1));
    var c := Step(b, Replace(1));
    ReplaceStep(b, 1);
    var high := b.(text := Text(Release(previous), late));
    PutParts(high, 1, Finished(Made(Release(previous), late)));
    AtParts(b, high, 0);
    RunOne(c, Replace(0));
    ReplaceStep(c, 0);
    PutParts(c.(text := Text(Release(previous), early)), 0, Finished(Made(Release(previous), early)));
  }

  lemma PutParts(s: Site, o: nat, stage: Stage)
    ensures var t := s.Put(o, stage);
            && t.text == s.text && t.rows == s.rows && t.sent == s.sent
            && t.Number(o) == s.Number(o) && t.At(o) == stage && forall p | p != o :: t.At(p) == s.At(p)
  {
  }

  lemma BeginParts(s: Site, o: nat)
    ensures var t := s.Begin(o);
            && t.text == s.text && t.rows == s.rows && t.sent == s.sent && t.Number(o) == s.begun
            && forall p :: t.At(p) == s.At(p)
  {
  }

  lemma AtParts(s: Site, t: Site, o: nat)
    requires s.stages == t.stages
    ensures s.At(o) == t.At(o)
  {
  }

  lemma RunOne(s: Site, e: Event)
    ensures Run(s, [e]) == Step(s, e)
  {
    assert [e][1..] == [];
    hide Step;
    assert Run(Step(s, e), []) == Step(s, e);
  }

  /** An upload that was reported failed but landed costs nothing: the next publication of the same
      database finds the asset, installs the manifest, and sends no upload. */
  lemma RerunCompletes(s: Site, o: nat, db: Database, previous: Fields)
    requires s.At(o).Idle? && Read(s.text) == Ok(previous) && Publishable(previous, db)
    requires Offered(s.rows, db) && |s.rows| <= MAX_ASSETS && Release(previous) == "thresholds-latest"
    ensures var done := Run(s, Approach(o, db) + [Replace(o)]);
            Read(done.text) == Ok(Made("thresholds-latest", db)) && done.sent == s.sent
  {
    assert Measurable(db);
    InstalledReadsBack("thresholds-latest", db);
    hide *;
    ApproachRuns(s, o, db, previous);
    var t := s.Begin(o).Put(o, Rechecked(previous, db));
    BeginParts(s, o);
    PutParts(s.Begin(o), o, Rechecked(previous, db));
    RunChains(s, Approach(o, db), [Replace(o)]);
    RunOne(t, Replace(o));
    ReplaceStep(t, o);
    var written := t.(text := Text(Release(previous), db));
    TextParts(t, Text(Release(previous), db));
    PutParts(written, o, Finished(Made(Release(previous), db)));
  }

  lemma TextParts(s: Site, text: string)
    ensures var t := s.(text := text); t.text == text && t.rows == s.rows && t.sent == s.sent && t.stages == s.stages
  {
  }
}
