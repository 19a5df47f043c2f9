/** Publication of a threshold database: upload under a name fixed by the content, verify, then swap the
    manifest file. Any number of owners may publish, each may fail or die between two steps, an upload
    may land although it was reported failed, and the release may change at any moment. */
module ArtifactProtocol {
  import opened Common
  import opened Manifest
  import opened PublishedManifest

  /** One asset as the release lists it; a size that is not an integer is none. */
  datatype Row = Row(name: string, uploaded: bool, size: Option<int>, digest: string)

  const MAX_ASSETS: nat := 900

  // ----- looking at a listing

  function Matches(rows: seq<Row>, name: string): (found: seq<Row>)
    ensures forall r :: r in found <==> r in rows && r.name == name
  {
    if rows == [] then []
    else (if rows[0].name == name then [rows[0]] else []) + Matches(rows[1..], name)
  }

  predicate VerifiedAsset(row: Row, sha: string, size: int) {
    row.uploaded && row.size == Some(size) && row.digest == "sha256:" + sha
  }

  /** The release lists exactly one asset of this name, and it is uploaded with this size and digest. */
  predicate Present(rows: seq<Row>, name: string, sha: string, size: int) {
    var found := Matches(rows, name);
    |found| == 1 && VerifiedAsset(found[0], sha, size)
  }

  predicate Offered(rows: seq<Row>, db: Database) {
    Present(rows, AssetName(db.sha), db.assetSha, db.assetSize)
  }

  /** The asset a V2 manifest names. */
  predicate NamedBy(rows: seq<Row>, f: Fields) {
    f.Keys == V2 ==> AllDigits(f["asset_bytes"]) && Present(rows, f["asset"], f["asset_sha256"], Numeral(f["asset_bytes"]))
  }

  /** The assumption about the release: an uploaded asset that is the only one of its name stays so. */
  ghost predicate Keeps(before: seq<Row>, after: seq<Row>) {
    forall r | r in before && r.uploaded && Matches(before, r.name) == [r] :: Matches(after, r.name) == [r]
  }

  // ----- the protocol

  /** How far one call of `publish_database` has come; `db` is what it measured. */
  datatype Stage =
    | Idle
    | Started(previous: Fields)
    | Unchanged(previous: Fields)
    | Built(previous: Fields, db: Database)
    | Uploading(previous: Fields, db: Database)
    | Sent(previous: Fields, db: Database)
    | Verified(previous: Fields, db: Database)
    | Rechecked(previous: Fields, db: Database)
    | Finished(manifest: Fields)
    | Failed

  /** One call of the upload command: which publication made it, and for which name. */
  datatype Sending = Sending(number: nat, name: string)

  /** The manifest file, the release, and the owners. Publications are numbered as they begin: `begun` counts
      them, `numbers` has the one that each owner is at, and `sent` is every upload so far. */
  datatype Site = Site(
    text: string, rows: seq<Row>, stages: map<nat, Stage>,
    begun: nat, numbers: map<nat, nat>, sent: seq<Sending>)
  {
    function At(o: nat): Stage { if o in stages then stages[o] else Idle }

    function Put(o: nat, stage: Stage): Site { this.(stages := stages[o := stage]) }

    function Number(o: nat): nat { if o in numbers then numbers[o] else 0 }

    function Begin(o: nat): Site { this.(begun := begun + 1, numbers := numbers[o := begun]) }

    function Send(o: nat, name: string): Site { this.(sent := sent + [Sending(Number(o), name)]) }
  }

  /** Nobody has published yet. */
  function Untouched(text: string, rows: seq<Row>): Site { Site(text, rows, map[], 0, map[], []) }

  /** `Measure` carries what the measuring and compressing functions found, or none when one of them refused.
      A listing is either answered with the current rows or fails. Whether an upload lands is up to the
      release, and what the uploader is told about it changes only the label of a later refusal. */
  datatype Event =
    | ReadPrevious(o: nat)
    | Measure(o: nat, found: Option<Database>)
    | List(o: nat, answered: bool)
    | Upload(o: nat)
    | Recheck(o: nat)
    | Replace(o: nat)
    | Crash(o: nat)
    | Remote(rows: seq<Row>)

  function Ymd(s: string): nat
    requires IsDay(s)
  {
    Numeral(s[..4]) * 10_000 + Numeral(s[5..7]) * 100 + Numeral(s[8..])
  }

  predicate Dated(f: Fields) { "last_diff_date" in f && IsDay(f["last_diff_date"]) }

  /** The database is byte for byte and row for row the one the previous manifest describes. */
  predicate SameAs(previous: Fields, db: Database) {
    && previous.Keys == V2 && previous["sha256"] == db.sha && previous["bytes"] == Decimal(db.size)
    && previous["active_stations"] == Decimal(db.active) && previous["threshold_rows"] == Decimal(db.rows)
    && previous["last_diff_date"] == db.lastDay
  }

  function Measured(previous: Fields, found: Option<Database>): Stage {
    if found.None? || !Measurable(found.value) then Failed
    else
      var db := found.value;
      if db.lastDay == "" || !Dated(previous) then Failed
      else if Ymd(db.lastDay) < Ymd(previous["last_diff_date"]) then Failed
      else if SameAs(previous, db) then Unchanged(previous)
      else Built(previous, db)
  }

  /** What a first or second look at the release leads to. */
  function Looked(stage: Stage, rows: seq<Row>): Stage {
    if |rows| > MAX_ASSETS then Failed
    else match stage
      case Unchanged(previous) =>
        if NamedBy(rows, previous) then Finished(previous) else Failed
      case Built(previous, db) =>
        if Matches(rows, AssetName(db.sha)) != [] then
          if Offered(rows, db) then Verified(previous, db) else Failed
        else if |rows| >= MAX_ASSETS then Failed
        else Uploading(previous, db)
      case Sent(previous, db) =>
        if Offered(rows, db) then Verified(previous, db) else Failed
      case _ => stage
  }

  /** One event; one that its owner is not ready for changes nothing. */
  ghost function Step(s: Site, e: Event): Site {
    match e
    case ReadPrevious(o) =>
      if !(s.At(o).Idle? || s.At(o).Finished? || s.At(o).Failed?) then s
      else s.Begin(o).Put(o, if Read(s.text).Ok? then Started(Read(s.text).value) else Failed)
    case Measure(o, found) =>
      if s.At(o).Started? then s.Put(o, Measured(s.At(o).previous, found)) else s
    case List(o, answered) =>
      if !(s.At(o).Unchanged? || s.At(o).Built? || s.At(o).Sent?) then s
      else if answered then s.Put(o, Looked(s.At(o), s.rows)) else s.Put(o, Failed)
    case Upload(o) =>
      if !s.At(o).Uploading? then s
      else s.Send(o, AssetName(s.At(o).db.sha)).Put(o, Sent(s.At(o).previous, s.At(o).db))
    case Recheck(o) =>
      if !s.At(o).Verified? then s
      else if Read(s.text) == Ok(s.At(o).previous) then s.Put(o, Rechecked(s.At(o).previous, s.At(o).db))
      else s.Put(o, Failed)
    case Replace(o) =>
      if !s.At(o).Rechecked? then s
      else
        var release := Release(s.At(o).previous);
        s.(text := Text(release, s.At(o).db)).Put(o, Finished(Made(release, s.At(o).db)))
    case Crash(o) => s.Put(o, Idle)
    case Remote(rows) => if Keeps(s.rows, rows) then s.(rows := rows) else s
  }

  function Release(previous: Fields): string { if "release" in previous then previous["release"] else "" }

  ghost function Run(s: Site, events: seq<Event>): Site
    decreases |events|
  {
    if events == [] then s else Run(Step(s, events[0]), events[1..])
  }

  // ----- the installed manifest names a verified asset

  ghost predicate Integrity(s: Site) { Read(s.text).Ok? ==> NamedBy(s.rows, Read(s.text).value) }

  predicate Carries(stage: Stage) {
    stage.Built? || stage.Uploading? || stage.Sent? || stage.Verified? || stage.Rechecked?
  }

  ghost predicate Knows(rows: seq<Row>, stage: Stage) {
    && (stage.Started? || stage.Unchanged? || Carries(stage) ==> Checked(stage.previous) == Ok(stage.previous))
    && (Carries(stage) ==>
          && Measurable(stage.db) && Dated(stage.previous) && IsDay(stage.db.lastDay)
          && Ymd(stage.previous["last_diff_date"]) <= Ymd(stage.db.lastDay))
    && (stage.Verified? || stage.Rechecked? ==> Offered(rows, stage.db))
    && (stage.Finished? ==> NamedBy(rows, stage.manifest))
  }

  ghost predicate Inv(s: Site) {
    Integrity(s) && forall o | o in s.stages :: Knows(s.rows, s.stages[o])
  }

  lemma PresentStays(before: seq<Row>, after: seq<Row>, name: string, sha: string, size: int)
    requires Keeps(before, after) && Present(before, name, sha, size)
    ensures Present(after, name, sha, size)
  {
    var r := Matches(before, name)[0];
    assert r in Matches(before, name);
    assert Matches(before, name) == [r];
  }

  lemma RemoteKeeps(s: Site, rows: seq<Row>)
    requires Inv(s)
    ensures Inv(Step(s, Remote(rows)))
  {
    var t := Step(s, Remote(rows));
    if Keeps(s.rows, rows) {
      hide Matches, Checked, Keeps, Present, Dated, Measurable, Read, IsDay, Ymd, AllDigits, AssetName;
      forall o | o in t.stages ensures Knows(t.rows, t.stages[o]) {
        assert Knows(s.rows, s.stages[o]);
        NamedStays(s, t);
      }
      NamedStays(s, t);
    }
  }

  lemma NamedStays(s: Site, t: Site)
    requires Keeps(s.rows, t.rows)
    ensures forall f: Fields | NamedBy(s.rows, f) :: NamedBy(t.rows, f)
    ensures forall db: Database | Offered(s.rows, db) :: Offered(t.rows, db)
  {
    hide Keeps, Present, AllDigits, Numeral, AssetName;
    forall f: Fields | NamedBy(s.rows, f) ensures NamedBy(t.rows, f) {
      if f.Keys == V2 {
        PresentStays(s.rows, t.rows, f["asset"], f["asset_sha256"], Numeral(f["asset_bytes"]));
      }
    }
    forall db: Database | Offered(s.rows, db) ensures Offered(t.rows, db) {
      PresentStays(s.rows, t.rows, AssetName(db.sha), db.assetSha, db.assetSize);
    }
  }

  /** An accepted manifest always comes from the one release. */
  lemma AcceptedRelease(f: Fields)
    requires Checked(f) == Ok(f)
    ensures Release(f) == "thresholds-latest"
    ensures "last_diff_date" in f && (f["last_diff_date"] == "" || Dated(f))
  {
    hide IsSha, IsInteger, IsDay, V2Values;
  }

  lemma ReadIsChecked(text: string)
    requires Read(text).Ok?
    ensures Checked(Read(text).value) == Read(text)
  {
    hide IsAscii, SplitLines, AddLines, LegacyValues, V2Values, IsDay;
  }

  lemma MadeNamed(rows: seq<Row>, release: string, db: Database)
    requires Measurable(db) && Offered(rows, db)
    ensures NamedBy(rows, Made(release, db))
  {
    DecimalReadsBack(db.assetSize);
    MadeKeys(release, db);
    hide Present, IsSha, IsDay, Decimal, AssetName, Numeral;
  }

  lemma ReplaceMakes(rows: seq<Row>, previous: Fields, db: Database)
    requires Knows(rows, Rechecked(previous, db))
    ensures Measurable(db) && Release(previous) == "thresholds-latest"
    ensures NamedBy(rows, Made(Release(previous), db))
    ensures Read(Text(Release(previous), db)) == Ok(Made(Release(previous), db))
  {
    assert Measurable(db) && Offered(rows, db) && Checked(previous) == Ok(previous);
    hide *;
    AcceptedRelease(previous);
    InstalledReadsBack(Release(previous), db);
    MadeNamed(rows, Release(previous), db);
  }

  lemma ReplaceStep(s: Site, o: nat)
    requires s.At(o).Rechecked?
    ensures var release := Release(s.At(o).previous);
            Step(s, Replace(o)) == s.(text := Text(release, s.At(o).db)).Put(o, Finished(Made(release, s.At(o).db)))
  {
    hide Text, Made, Release;
  }

  /** What one owner may do: move to a stage it has earned, and put a sound text in the file. */
  lemma WriteKeeps(s: Site, t: Site, o: nat, stage: Stage)
    requires Inv(s) && Knows(s.rows, stage) && Integrity(t)
    requires t.rows == s.rows && t.stages == s.stages[o := stage]
    ensures Inv(t)
  {
    hide Knows, Integrity;
  }

  lemma ReplaceKeeps(s: Site, o: nat)
    requires Inv(s)
    ensures Inv(Step(s, Replace(o)))
  {
    if s.At(o).Rechecked? {
      assert Knows(s.rows, s.At(o)) && s.At(o) == Rechecked(s.At(o).previous, s.At(o).db);
      ReplaceIsSound(s, o, s.At(o).previous, s.At(o).db);
    } else {
      hide Inv;
      assert Step(s, Replace(o)) == s;
    }
  }

  lemma ReplaceIsSound(s: Site, o: nat, previous: Fields, db: Database)
    requires Inv(s) && s.At(o) == Rechecked(previous, db) && Knows(s.rows, Rechecked(previous, db))
    ensures Inv(Step(s, Replace(o)))
  {
    hide *;
    ReplaceMakes(s.rows, previous, db);
    FinishedKnows(s.rows, Made(Release(previous), db));
    ReplaceStep(s, o);
    var t := Step(s, Replace(o));
    WrittenParts(s, o, Text(Release(previous), db), Finished(Made(Release(previous), db)));
    SoundText(t, Made(Release(previous), db));
    WriteKeeps(s, t, o, Finished(Made(Release(previous), db)));
  }

  lemma WrittenParts(s: Site, o: nat, text: string, stage: Stage)
    ensures var t := s.(text := text).Put(o, stage);
            t.text == text && t.rows == s.rows && t.stages == s.stages[o := stage]
  {
  }

  lemma SoundText(s: Site, f: Fields)
    requires Read(s.text) == Ok(f) && NamedBy(s.rows, f)
    ensures Integrity(s)
  {
    hide Read, NamedBy;
  }

  lemma FinishedKnows(rows: seq<Row>, f: Fields)
    requires NamedBy(rows, f)
    ensures Knows(rows, Finished(f))
  {
    hide NamedBy;
  }

  lemma MeasuredKnows(s: Site, previous: Fields, found: Option<Database>)
    requires Checked(previous) == Ok(previous)
    ensures Knows(s.rows, Measured(previous, found))
  {
    hide Checked, Ymd, SameAs, Offered, NamedBy, IsSha;
  }

  lemma LookedKnows(s: Site, stage: Stage)
    requires Knows(s.rows, stage)
    ensures Knows(s.rows, Looked(stage, s.rows))
  {
    hide Checked, Ymd, Offered, NamedBy, IsSha, Dated, Matches, Measurable, IsDay, AssetName;
  }

  lemma StartKnows(s: Site, o: nat)
    ensures Knows(s.rows, s.At(o)) ==> Knows(s.rows, Step(s, ReadPrevious(o)).At(o))
  {
    if Read(s.text).Ok? {
      ReadIsChecked(s.text);
    }
    hide Read, Checked, NamedBy, Offered, Measurable, Ymd, IsDay, Dated;
  }

  lemma OwnStep(s: Site, e: Event)
    requires !e.Remote? && !e.Replace? && Knows(s.rows, s.At(e.o))
    ensures Knows(s.rows, Step(s, e).At(e.o))
  {
    var stage := s.At(e.o);
    if e.ReadPrevious? {
      StartKnows(s, e.o);
    } else if e.Measure? && stage.Started? {
      assert Checked(stage.previous) == Ok(stage.previous);
      MeasuredKnows(s, stage.previous, e.found);
    } else if e.List? {
      LookedKnows(s, stage);
    }
    hide Read, Checked, NamedBy, Offered, Measurable, Ymd, IsDay, Dated, Measured, Looked, Text, Made, Matches, Keeps,
         AssetName, Release;
  }

  /** Only a replacement writes the file, and an owner moves only itself. */
  lemma OwnParts(s: Site, e: Event)
    requires !e.Remote? && !e.Replace?
    ensures Step(s, e).text == s.text && Step(s, e).rows == s.rows
    ensures Step(s, e).stages == s.stages || Step(s, e).stages == s.stages[e.o := Step(s, e).At(e.o)]
  {
    hide Read, Measured, Looked, Text, Made, Keeps, AssetName, Release;
  }

  lemma StepKeeps(s: Site, e: Event)
    requires Inv(s)
    ensures Inv(Step(s, e))
  {
    if e.Remote? {
      RemoteKeeps(s, e.rows);
    } else if e.Replace? {
      ReplaceKeeps(s, e.o);
    } else {
      InvIntegrity(s);
      assert Knows(s.rows, s.At(e.o));
      var t := Step(s, e);
      hide Step, Knows, NamedBy, Read;
      OwnStep(s, e);
      OwnParts(s, e);
      if t.stages != s.stages {
        WriteKeeps(s, t, e.o, t.At(e.o));
      }
    }
  }

  lemma InvIntegrity(s: Site)
    requires Inv(s)
    ensures Integrity(s)
  {
    hide Integrity;
  }

  lemma {:induction false} RunKeeps(s: Site, events: seq<Event>)
    requires Inv(s)
    ensures Integrity(Run(s, events)) && Inv(Run(s, events))
    decreases |events|
  {
    if events != [] {
      StepKeeps(s, events[0]);
      hide Inv, Step;
      RunKeeps(Step(s, events[0]), events[1..]);
    }
    hide Step, NamedBy, Knows, Read;
  }

  /** MAIN RESULT. In every reachable state, whoever publishes and whatever crashes, fails or lands late, a
      readable V2 manifest on disk names exactly one listed asset, uploaded with its digest and size, if
      it did before anybody published. */
  lemma InstalledAssetPresent(text: string, rows: seq<Row>, events: seq<Event>)
    requires Read(text).Ok? ==> NamedBy(rows, Read(text).value)
    ensures Integrity(Run(Untouched(text, rows), events))
  {
    assert Inv(Untouched(text, rows));
    RunKeeps(Untouched(text, rows), events);
  }

  // ----- how often something is uploaded

  /** The publication has not reached its upload. */
  predicate Early(stage: Stage) { stage.Started? || stage.Unchanged? || stage.Built? || stage.Uploading? }

  /** Every upload is of a publication that began, no two are of one, and the publications that have not come
      to theirs have none. */
  ghost predicate Counted(s: Site) {
    && (forall x | x in s.sent :: x.number < s.begun)
    && (forall o | o in s.numbers :: s.numbers[o] < s.begun)
    && (forall o, p | o in s.numbers && p in s.numbers && o != p :: s.numbers[o] != s.numbers[p])
    && (forall i, j | 0 <= i < j < |s.sent| :: s.sent[i].number != s.sent[j].number)
    && (forall o | o in s.stages && Early(s.stages[o]) :: o in s.numbers && forall x | x in s.sent :: x.number != s.numbers[o])
  }

  predicate Begins(s: Site, e: Event, t: Site) {
    && e.ReadPrevious? && (t.begun, t.numbers, t.sent) == (s.begun + 1, s.numbers[e.o := s.begun], s.sent)
    && t.stages == s.stages[e.o := t.At(e.o)]
  }

  predicate Sends(s: Site, e: Event, t: Site) {
    && e.Upload? && s.At(e.o).Uploading? && (t.begun, t.numbers) == (s.begun, s.numbers)
    && t.sent == s.sent + [Sending(s.Number(e.o), AssetName(s.At(e.o).db.sha))]
    && t.stages == s.stages[e.o := Sent(s.At(e.o).previous, s.At(e.o).db)]
  }

  ghost predicate CountsKept(s: Site, t: Site) {
    && (t.begun, t.numbers, t.sent) == (s.begun, s.numbers, s.sent)
    && forall o | o in t.stages && Early(t.stages[o]) :: o in s.stages && Early(s.stages[o])
  }

  /** What a step does to the counts. */
  lemma StepCounts(s: Site, e: Event)
    ensures Begins(s, e, Step(s, e)) || Sends(s, e, Step(s, e)) || CountsKept(s, Step(s, e))
  {
    hide Read, Checked, NamedBy, Offered, Measurable, Ymd, IsDay, Dated, SameAs, Text, Made, Matches, Keeps, AssetName,
         Release;
  }

  lemma StepKeepsCounted(s: Site, e: Event)
    requires Counted(s)
    ensures Counted(Step(s, e))
  {
    StepCounts(s, e);
    hide Step, AssetName;
  }

  lemma {:induction false} RunKeepsCounted(s: Site, events: seq<Event>)
    requires Counted(s)
    ensures Counted(Run(s, events))
    decreases |events|
  {
    if events != [] {
      StepKeepsCounted(s, events[0]);
      hide Counted, Step;
      RunKeepsCounted(Step(s, events[0]), events[1..]);
    }
    hide Step;
  }

  /** MAIN RESULT. Over every run no publication uploads more than once, however often it fails, and however
      many owners publish at a time. */
  lemma AtMostOneUpload(text: string, rows: seq<Row>, events: seq<Event>)
    ensures var sent := Run(Untouched(text, rows), events).sent;
      forall i, j | 0 <= i < j < |sent| :: sent[i].number != sent[j].number
  {
    assert Counted(Untouched(text, rows));
    hide Step;
    RunKeepsCounted(Untouched(text, rows), events);
  }

  /** The release lists one uploaded asset of this name, and nobody is about to upload it. */
  ghost predicate Listed(s: Site, name: string) {
    && (exists r | r in s.rows && r.uploaded && r.name == name :: Matches(s.rows, name) == [r])
    && (forall o | o in s.stages && s.stages[o].Uploading? :: AssetName(s.stages[o].db.sha) != name)
  }

  ghost predicate Uploads(sent: seq<Sending>, name: string) { exists x | x in sent :: x.name == name }

  /** A publication gets to its upload only by a look that does not show the asset. */
  lemma UploadingAfterLook(s: Site, e: Event)
    ensures var t := Step(s, e);
      && (forall o | o in t.stages && t.stages[o].Uploading? ::
            (o in s.stages && s.stages[o] == t.stages[o])
            || Matches(s.rows, AssetName(t.stages[o].db.sha)) == [])
      && (t.rows == s.rows || (e.Remote? && Keeps(s.rows, t.rows)))
  {
    hide Read, Checked, NamedBy, Offered, Measurable, Ymd, IsDay, Dated, SameAs, Text, Made, Matches, Keeps, AssetName, Release;
  }

  lemma StepSends(s: Site, e: Event)
    ensures Step(s, e).sent == s.sent || Sends(s, e, Step(s, e))
  {
    StepCounts(s, e);
    hide Step, AssetName;
  }

  lemma StepListed(s: Site, e: Event, name: string)
    requires Listed(s, name)
    ensures Listed(Step(s, e), name)
    ensures s.sent <= Step(s, e).sent && !Uploads(Step(s, e).sent[|s.sent|..], name)
  {
    UploadingAfterLook(s, e);
    StepSends(s, e);
    var r :| r in s.rows && r.uploaded && r.name == name && Matches(s.rows, name) == [r];
    var t := Step(s, e);
    hide Step, Matches, AssetName;
    assert r in Matches(t.rows, name);
  }

  /** MAIN RESULT. What the release lists is not uploaded again: once the asset is uploaded and nobody was told
      before that it is missing, no continuation of the run sends one of its name. */
  lemma {:induction false} ListedIsNotSent(s: Site, events: seq<Event>, name: string)
    requires Listed(s, name)
    ensures s.sent <= Run(s, events).sent && !Uploads(Run(s, events).sent[|s.sent|..], name)
    decreases |events|
  {
    if events != [] {
      var t := Step(s, events[0]);
      StepListed(s, events[0], name);
      hide Listed, Step;
      ListedIsNotSent(t, events[1..], name);
      var last := Run(s, events).sent;
      assert last[|s.sent|..] == t.sent[|s.sent|..] + last[|t.sent|..];
    }
  }
}
