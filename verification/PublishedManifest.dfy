/** The manifest that a publication writes, and that its text can be read back for every database. */
module PublishedManifest {
  import opened Common
  import opened Manifest

  /** What is measured of a finished database file and of its compressed copy. */
  datatype Database = Database(
    active: nat, rows: nat, lastDay: string,
    sha: string, size: nat,
    assetSha: string, assetSize: nat)

  /** What is known of a file that the measuring functions do not refuse: their own checks, and that its
      rows lie in it. A threshold row takes a byte at least. A station takes 22 bytes at least in its table
      alone: the schema (src/data/ghcn_db.py:35-55) has 17 columns that no later migration adds, so its
      cell has a length, a row id, a header size and 17 column types of a byte or more, and two bytes
      in the page's cell index. */
  predicate Measurable(db: Database) {
    && db.active >= 1000 && db.rows >= 1000 && (db.lastDay == "" || IsDay(db.lastDay))
    && IsSha(db.sha) && 1 <= db.size <= MAX_DB_BYTES
    && db.rows <= db.size && 22 * db.active <= db.size
    && IsSha(db.assetSha) && 1 <= db.assetSize <= MAX_ASSET_BYTES
  }

  // ----- decimal numerals

  function Digit(d: nat): (c: char)
    requires d < 10
    ensures IsDigit(c) && c as int == '0' as int + d
  {
    ('0' as int + d) as char
  }

  /** `str(n)` */
  function Decimal(n: nat): string {
    if n < 10 then [Digit(n)] else Decimal(n / 10) + [Digit(n % 10)]
  }

  function Power(k: nat): nat { if k == 0 then 1 else 10 * Power(k - 1) }

  lemma {:induction false} DecimalReadsBack(n: nat)
    ensures AllDigits(Decimal(n)) && Decimal(n) != "" && Numeral(Decimal(n)) == n
    ensures n != 0 ==> Decimal(n)[0] != '0'
  {
    if n < 10 {
      assert Numeral(Decimal(n)[..0]) == 0;
    } else {
      DecimalReadsBack(n / 10);
      var s := Decimal(n);
      assert s[..|s| - 1] == Decimal(n / 10) && s[0] == Decimal(n / 10)[0];
    }
  }

  lemma {:induction false} DecimalLength(n: nat, k: nat)
    requires k >= 1 && n < Power(k)
    ensures |Decimal(n)| <= k
  {
    if n >= 10 {
      DecimalLength(n / 10, k - 1);
    }
  }

  /** `_integer` accepts the printed form of exactly the numbers within its bound. */
  lemma IntegerExactly(n: nat, maximum: nat)
    requires maximum < 10_000_000_000_000
    ensures IsInteger(Decimal(n), maximum) <==> 1 <= n <= maximum
  {
    DecimalReadsBack(n);
    if n <= maximum {
      assert Power(13) == 10_000_000_000_000;
      DecimalLength(n, 13);
    }
    if n == 0 {
      assert Decimal(n)[0] == '0';
    }
  }

  // ----- the manifest of one database

  const ORDER: seq<string> := ["release", "sha256", "bytes", "active_stations", "threshold_rows", "last_diff_date",
                               "format", "asset", "asset_sha256", "asset_bytes"]

  function Made(release: string, db: Database): Fields {
    map[
      "release" := release,
      "sha256" := db.sha,
      "bytes" := Decimal(db.size),
      "active_stations" := Decimal(db.active),
      "threshold_rows" := Decimal(db.rows),
      "last_diff_date" := db.lastDay,
      "format" := "sqlite-gzip",
      "asset" := AssetName(db.sha),
      "asset_sha256" := db.assetSha,
      "asset_bytes" := Decimal(db.assetSize)
    ]
  }

  function Text(release: string, db: Database): string {
    OrderCovers(release, db);
    Print(Made(release, db), ORDER)
  }

  lemma OrderCovers(release: string, db: Database)
    ensures forall k :: k in ORDER <==> k in Made(release, db)
  {
    hide Decimal, AssetName;
  }

  lemma OrderDistinct()
    ensures NoRepeats(ORDER)
  {
    assert |"release"| == 7 && |"sha256"| == 6 && |"bytes"| == 5 && |"active_stations"| == 15;
    assert |"threshold_rows"| == 14 && |"format"| == 6 && |"asset"| == 5;
    assert |"asset_sha256"| == 12 && |"asset_bytes"| == 11 && |"last_diff_date"| == 14;
    assert "sha256"[0] == 's' && "format"[0] == 'f' && "bytes"[0] == 'b' && "asset"[0] == 'a';
    assert "threshold_rows"[0] == 't' && "last_diff_date"[0] == 'l';
  }

  lemma MadeKeys(release: string, db: Database)
    ensures Made(release, db).Keys == V2
  {
    hide Decimal, AssetName;
  }

  lemma MadeValues(release: string, db: Database)
    requires Measurable(db)
    requires release == "thresholds-latest"
    ensures V2 <= Made(release, db).Keys
    ensures LegacyValues(Made(release, db))
    ensures V2Values(Made(release, db))
    ensures Made(release, db)["last_diff_date"] == db.lastDay
  {
    MadeKeys(release, db);
    IntegerExactly(db.size, MAX_DB_BYTES);
    IntegerExactly(db.active, 100_000_000);
    IntegerExactly(db.rows, 10_000_000_000);
    IntegerExactly(db.assetSize, MAX_ASSET_BYTES);
    hide Decimal, AssetName, IsSha, IsInteger, IsDay;
  }

  /** The manifest a publication writes is a valid one: the reader's bounds on the two counts, which the
      writing side does not check, follow from its bound on the file. */
  lemma MadeIsManifest(release: string, db: Database)
    requires Measurable(db) && release == "thresholds-latest"
    ensures IsManifest(Made(release, db)) && Checked(Made(release, db)) == Ok(Made(release, db))
  {
    MadeKeys(release, db);
    MadeValues(release, db);
    hide LegacyValues, V2Values, Made, IsDay;
  }

  /** MAIN RESULT. The text that a publication installs reads back as the manifest it describes. */
  lemma InstalledReadsBack(release: string, db: Database)
    requires Measurable(db) && release == "thresholds-latest"
    ensures Read(Text(release, db)) == Ok(Made(release, db))
  {
    MadeIsManifest(release, db);
    OrderCovers(release, db);
    OrderDistinct();
    assert Text(release, db) == Print(Made(release, db), ORDER);
    hide *;
    ManifestRoundTrip(Made(release, db), ORDER);
  }
}
