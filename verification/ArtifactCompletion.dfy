/** What a look at the release exactly leads to, and that an ordinary publication completes. */
module ArtifactCompletion {
  import opened Common
  import opened Manifest
  import opened PublishedManifest
  import opened ArtifactProtocol
  import opened ArtifactDates

  // ----- one look

  lemma {:induction false} MatchesAppend(a: seq<Row>, b: seq<Row>, name: string)
    ensures Matches(a + b, name) == Matches(a, name) + Matches(b, name)
  {
    if a == [] {
      assert a + b == b;
    } else {
      assert (a + b)[1..] == a[1..] + b;
      MatchesAppend(a[1..], b, name);
    }
  }

  lemma {:induction false} NoneFound(rows: seq<Row>, name: string)
    ensures Matches(rows, name) == [] <==> forall r | r in rows :: r.name != name
  {
    if Matches(rows, name) == [] {
      forall r | r in rows ensures r.name != name {
        assert r.name == name ==> r in Matches(rows, name);
      }
    } else {
      var r := Matches(rows, name)[0];
      assert r in Matches(rows, name);
    }
  }

  lemma OneAmong(rows: seq<Row>, i: nat, name: string)
    requires i < |rows|
    ensures Matches(rows, name)
         == Matches(rows[..i], name) + (if rows[i].name == name then [rows[i]] else []) + Matches(rows[i + 1..], name)
  {
    assert rows == rows[..i] + ([rows[i]] + rows[i + 1..]);
    MatchesAppend(rows[..i], [rows[i]] + rows[i + 1..], name);
    assert ([rows[i]] + rows[i + 1..])[1..] == rows[i + 1..];
    assert Matches([rows[i]] + rows[i + 1..], name)
        == (if rows[i].name == name then [rows[i]] else []) + Matches(rows[i + 1..], name);
  }

  /** This row is the only one of its name, and it is uploaded with this size and digest. */
  ghost predicate OnlyAt(rows: seq<Row>, i: nat, name: string, sha: string, size: int) {
    && i < |rows| && rows[i] == Row(name, true, Some(size), "sha256:" + sha)
    && forall j | 0 <= j < |rows| && j != i :: rows[j].name != name
  }

  lemma OnlyIsPresent(rows: seq<Row>, i: nat, name: string, sha: string, size: int)
    requires OnlyAt(rows, i, name, sha, size)
    ensures Present(rows, name, sha, size)
  {
    OneAmong(rows, i, name);
    forall r | r in rows[..i] ensures r.name != name {
      var j :| 0 <= j < i && rows[..i][j] == r;
      assert rows[j] == r;
    }
    forall r | r in rows[i + 1..] ensures r.name != name {
      var j :| 0 <= j < |rows| - i - 1 && rows[i + 1..][j] == r;
      assert rows[i + 1 + j] == r;
    }
    NoneFound(rows[..i], name);
    NoneFound(rows[i + 1..], name);
  }

  lemma PresentIsOnly(rows: seq<Row>, name: string, sha: string, size: int) returns (i: nat)
    requires Present(rows, name, sha, size)
    ensures OnlyAt(rows, i, name, sha, size)
  {
    var r := Matches(rows, name)[0];
    assert r in Matches(rows, name);
    i :| 0 <= i < |rows| && rows[i] == r;
    OneAmong(rows, i, name);
    assert Matches(rows, name) == [r];
    assert |Matches(rows[..i], name)| == 0 && |Matches(rows[i + 1..], name)| == 0;
    NoneFound(rows[..i], name);
    NoneFound(rows[i + 1..], name);
    hide Matches;
    forall j | 0 <= j < |rows| && j != i ensures rows[j].name != name {
      if j < i {
        assert rows[j] in rows[..i];
      } else {
        assert rows[j] == rows[i + 1..][j - i - 1];
        assert rows[j] in rows[i + 1..];
      }
    }
  }

  /** The release offers an asset exactly when one row of its name is there, uploaded with its size and digest. */
  lemma PresentExactly(rows: seq<Row>, name: string, sha: string, size: int)
    ensures Present(rows, name, sha, size) <==> exists i: nat :: OnlyAt(rows, i, name, sha, size)
  {
    if i: nat :| OnlyAt(rows, i, name, sha, size) {
      OnlyIsPresent(rows, i, name, sha, size);
    }
    if Present(rows, name, sha, size) {
      var i := PresentIsOnly(rows, name, sha, size);
    }
  }

  ghost predicate HasAsset(rows: seq<Row>, db: Database) {
    exists i: nat :: OnlyAt(rows, i, "station_thresholds-" + db.sha + ".sqlite.gz", db.assetSha, db.assetSize)
  }

  /** MAIN RESULT. What an answered look decides, case by case. After an upload, and for an unchanged database, it fails
      exactly when the release does not offer the asset; before one it leads to an upload exactly when no row has
      the name and there is room, and to no upload exactly when the release offers the asset already. */
  lemma LookExactly(previous: Fields, db: Database, rows: seq<Row>)
    requires |rows| <= MAX_ASSETS
    ensures Looked(Sent(previous, db), rows) == if HasAsset(rows, db) then Verified(previous, db) else Failed
    ensures Looked(Built(previous, db), rows) == Verified(previous, db) <==> HasAsset(rows, db)
    ensures Looked(Built(previous, db), rows) == Uploading(previous, db)
       <==> |rows| < 900 && forall r | r in rows :: r.name != "station_thresholds-" + db.sha + ".sqlite.gz"
    ensures Looked(Built(previous, db), rows) in {Verified(previous, db), Uploading(previous, db), Failed}
    ensures Looked(Unchanged(previous), rows) == if NamedBy(rows, previous) then Finished(previous) else Failed
  {
    PresentExactly(rows, AssetName(db.sha), db.assetSha, db.assetSize);
    NoneFound(rows, AssetName(db.sha));
    var found := Matches(rows, AssetName(db.sha));
    assert Offered(rows, db) ==> found != [];
    hide Matches, Present, NamedBy;
  }

  // ----- dates

  /** The order of days is that of their years, months and days. */
  lemma YmdOrders(s: string, t: string)
    requires IsDay(s) && IsDay(t)
    ensures var (y, m, d, y', m', d') := (Numeral(s[..4]), Numeral(s[5..7]), Numeral(s[8..]),
                                          Numeral(t[..4]), Numeral(t[5..7]), Numeral(t[8..]));
      Ymd(s) < Ymd(t) <==> y < y' || (y == y' && (m < m' || (m == m' && d < d')))
  {
    hide Numeral, AllDigits;
  }

  /** What the measuring finds acceptable: at least a thousand stations and rows, digests, and files of some length up to
      the limits of 2 GiB and 512 MiB that can hold the counted rows. */
  predicate Plausible(db: Database) {
    && db.active > 999 && db.rows > 999
    && IsSha(db.sha) && IsSha(db.assetSha)
    && 0 < db.size < 0x8000_0000 && 0 < db.assetSize < 0x2000_0001
    && !(db.rows > db.size) && !(22 * db.active > db.size)
  }

  /** What the measuring decides: a publication goes on exactly when the files are acceptable, both databases carry a
      day, the new one no earlier one, and something in it differs from what the manifest says. */
  lemma MeasureExactly(previous: Fields, found: Option<Database>)
    ensures Measured(previous, None) == Failed
    ensures found.Some? ==>
      var db := found.value;
      var goesOn := Plausible(db) && IsDay(db.lastDay) && "last_diff_date" in previous && IsDay(previous["last_diff_date"])
                    && Ymd(previous["last_diff_date"]) <= Ymd(db.lastDay);
      var same := previous.Keys == V2 && previous["sha256"] == db.sha && previous["bytes"] == Decimal(db.size)
                  && previous["active_stations"] == Decimal(db.active) && previous["threshold_rows"] == Decimal(db.rows)
                  && previous["last_diff_date"] == db.lastDay;
      Measured(previous, found) == if !goesOn then Failed else if same then Unchanged(previous) else Built(previous, db)
  {
    assert !IsDay("");
    hide Ymd, IsSha, Decimal, IsDay;
  }

  // ----- an ordinary publication

  /** The asset as the release lists it when its upload has landed. */
  function Landed(db: Database): Row { Row(AssetName(db.sha), true, Some(db.assetSize), "sha256:" + db.assetSha) }

  lemma LandedKeeps(rows: seq<Row>, db: Database)
    requires Matches(rows, AssetName(db.sha)) == []
    ensures Keeps(rows, rows + [Landed(db)]) && Offered(rows + [Landed(db)], db)
  {
    hide AssetName;
    var after := rows + [Landed(db)];
    NoneFound(rows, AssetName(db.sha));
    assert [Landed(db)][1..] == [];
    forall r | r in rows && r.uploaded && Matches(rows, r.name) == [r] ensures Matches(after, r.name) == [r] {
      MatchesAppend(rows, [Landed(db)], r.name);
      assert r.name != Landed(db).name;
      assert [r] + [] == [r];
    }
    MatchesAppend(rows, [Landed(db)], AssetName(db.sha));
    assert [] + [Landed(db)] == [Landed(db)];
  }

  /** The eight events of a publication whose upload lands. */
  function Publication(o: nat, db: Database, rows: seq<Row>): seq<Event> {
    [ReadPrevious(o)] + ([Measure(o, Some(db))] + ([List(o, true)] + ([Upload(o)] + ([Remote(rows + [Landed(db)])]
      + ([List(o, true)] + ([Recheck(o)] + [Replace(o)]))))))
  }

  /** From the measured database to the listed asset. */
  lemma UploadSteps(s: Site, o: nat, db: Database, previous: Fields)
    requires Matches(s.rows, AssetName(db.sha)) == [] && |s.rows| < MAX_ASSETS
    ensures s.At(o) == Built(previous, db) ==> Step(s, List(o, true)) == s.Put(o, Uploading(previous, db))
    ensures s.At(o) == Uploading(previous, db) ==>
              Step(s, Upload(o)) == s.Send(o, AssetName(db.sha)).Put(o, Sent(previous, db))
    ensures Step(s, Remote(s.rows + [Landed(db)])) == s.(rows := s.rows + [Landed(db)])
  {
    LandedKeeps(s.rows, db);
    hide Read, Matches, Offered, AssetName, Measured, Made, Text, NamedBy, Keeps, Release, Landed;
  }

  lemma SentSteps(s: Site, o: nat, db: Database, previous: Fields)
    requires Offered(s.rows, db) && |s.rows| <= MAX_ASSETS
    ensures s.At(o) == Sent(previous, db) ==> Step(s, List(o, true)) == s.Put(o, Verified(previous, db))
    ensures s.At(o) == Verified(previous, db) && Read(s.text) == Ok(previous)
            ==> Step(s, Recheck(o)) == s.Put(o, Rechecked(previous, db))
  {
    hide Read, Matches, Offered, AssetName, Measured, Made, Text, NamedBy, Keeps, Release;
  }

  lemma StartSteps(s: Site, o: nat, db: Database, previous: Fields)
    requires Publishable(previous, db)
    ensures s.At(o).Idle? && Read(s.text) == Ok(previous) ==> Step(s, ReadPrevious(o)) == s.Begin(o).Put(o, Started(previous))
    ensures s.At(o) == Started(previous) ==> Step(s, Measure(o, Some(db))) == s.Put(o, Built(previous, db))
  {
    PublishableBuilds(previous, db);
    hide Read, Matches, Offered, AssetName, Measured, Looked, Publishable, Made, Text, NamedBy, Keeps, Release;
  }

  lemma SendParts(s: Site, o: nat, name: string)
    ensures var t := s.Send(o, name);
      && t.text == s.text && t.rows == s.rows && t.stages == s.stages && t.sent == s.sent + [Sending(s.Number(o), name)]
      && t.Number(o) == s.Number(o)
  {
  }

  /** The first half: the upload is sent, once, and lands. */
  lemma UploadLands(s: Site, o: nat, db: Database, previous: Fields, rest: seq<Event>) returns (t: Site)
    requires s.At(o).Idle? && Read(s.text) == Ok(previous) && Publishable(previous, db)
    requires Matches(s.rows, AssetName(db.sha)) == [] && |s.rows| < MAX_ASSETS
    ensures t.text == s.text && t.rows == s.rows + [Landed(db)] && t.At(o) == Sent(previous, db)
    ensures t.sent == s.sent + [Sending(s.begun, AssetName(db.sha))]
    ensures Run(s, [ReadPrevious(o)] + ([Measure(o, Some(db))] + ([List(o, true)] + ([Upload(o)]
                   + ([Remote(s.rows + [Landed(db)])] + rest))))) == Run(t, rest)
  {
    hide *;
    var land := [Remote(s.rows + [Landed(db)])] + rest;
    var send := [Upload(o)] + land;
    var look := [List(o, true)] + send;
    BeginParts(s, o);
    var a := s.Begin(o).Put(o, Started(previous));
    PutParts(s.Begin(o), o, Started(previous));
    StartSteps(s, o, db, previous);
    RunFirst(s, ReadPrevious(o), [Measure(o, Some(db))] + look);
    var b := a.Put(o, Built(previous, db));
    PutParts(a, o, Built(previous, db));
    StartSteps(a, o, db, previous);
    RunFirst(a, Measure(o, Some(db)), look);
    var c := b.Put(o, Uploading(previous, db));
    PutParts(b, o, Uploading(previous, db));
    UploadSteps(b, o, db, previous);
    RunFirst(b, List(o, true), send);
    var d := c.Send(o, AssetName(db.sha)).Put(o, Sent(previous, db));
    SendParts(c, o, AssetName(db.sha));
    PutParts(c.Send(o, AssetName(db.sha)), o, Sent(previous, db));
    UploadSteps(c, o, db, previous);
    RunFirst(c, Upload(o), land);
    t := d.(rows := s.rows + [Landed(db)]);
    UploadSteps(d, o, db, previous);
    RunFirst(d, Remote(s.rows + [Landed(db)]), rest);
    AtParts(d, t, o);
  }

  /** The second half: the landed asset is verified and the manifest installed. */
  lemma LandedCompletes(t: Site, o: nat, db: Database, previous: Fields)
    requires t.At(o) == Sent(previous, db) && Read(t.text) == Ok(previous) && Publishable(previous, db)
    requires Offered(t.rows, db) && |t.rows| <= MAX_ASSETS
    ensures var done := Run(t, [List(o, true)] + ([Recheck(o)] + [Replace(o)]));
      Read(done.text) == Ok(Made("thresholds-latest", db)) && done.sent == t.sent && done.rows == t.rows
  {
    assert Measurable(db);
    ReadIsChecked(t.text);
    hide *;
    AcceptedRelease(previous);
    InstalledReadsBack("thresholds-latest", db);
    var a := t.Put(o, Verified(previous, db));
    PutParts(t, o, Verified(previous, db));
    SentSteps(t, o, db, previous);
    RunFirst(t, List(o, true), [Recheck(o)] + [Replace(o)]);
    var b := a.Put(o, Rechecked(previous, db));
    PutParts(a, o, Rechecked(previous, db));
    SentSteps(a, o, db, previous);
    RunFirst(a, Recheck(o), [Replace(o)]);
    RunOne(b, Replace(o));
    ReplaceStep(b, o);
    var written := b.(text := Text(Release(previous), db));
    TextParts(b, Text(Release(previous), db));
    PutParts(written, o, Finished(Made(Release(previous), db)));
  }

  /** MAIN RESULT. An ordinary publication completes: from any readable manifest and any publishable database whose asset
      the release does not have yet, with room for it, the eight events of a publication whose upload lands
      install the manifest of that database, and exactly one upload was sent for it. */
  lemma PublicationCompletes(s: Site, o: nat, db: Database, previous: Fields)
    requires s.At(o).Idle? && Read(s.text) == Ok(previous) && Publishable(previous, db)
    requires Matches(s.rows, AssetName(db.sha)) == [] && |s.rows| < MAX_ASSETS
    ensures var done := Run(s, Publication(o, db, s.rows));
      && Read(done.text) == Ok(Made("thresholds-latest", db))
      && done.sent == s.sent + [Sending(s.begun, AssetName(db.sha))]
      && Offered(done.rows, db)
  {
    LandedKeeps(s.rows, db);
    var rest := [List(o, true)] + ([Recheck(o)] + [Replace(o)]);
    assert Publication(o, db, s.rows) == [ReadPrevious(o)] + ([Measure(o, Some(db))] + ([List(o, true)] + ([Upload(o)]
                   + ([Remote(s.rows + [Landed(db)])] + rest))));
    hide Run, Read, Publishable, Matches, AssetName, Offered, Publication, Made, Landed;
    var t := UploadLands(s, o, db, previous, rest);
    LandedCompletes(t, o, db, previous);
  }
}
