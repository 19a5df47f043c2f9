/** The threshold manifest as text: one `key=value` line per field. Reading what was printed gives
    the same fields back, in whatever order they were printed. */
module Manifest {
  import opened Common

  type Fields = map<string, string>

  datatype Label = InvalidManifest | InvalidCheckpoint

  const LEGACY: set<string> := {"release", "sha256", "bytes", "last_diff_date", "active_stations", "threshold_rows"}
  const V2: set<string> := LEGACY + {"format", "asset", "asset_sha256", "asset_bytes"}

  const MAX_TEXT: nat := 4096
  const MAX_DB_BYTES: nat := 2 * 1024 * 1024 * 1024 - 1
  const MAX_ASSET_BYTES: nat := 512 * 1024 * 1024

  // ----- lines

  predicate IsAscii(t: string) { forall c | c in t :: (c as int) < 0x80 }

  /** What `splitlines` breaks an ASCII text at. */
  predicate IsBreak(c: char) {
    c == '\n' || c == '\r' || c as int == 0x0b || c as int == 0x0c || 0x1c <= c as int <= 0x1e
  }

  function FirstBreak(t: string): (i: nat)
    ensures i <= |t| && (i < |t| ==> IsBreak(t[i])) && forall j | 0 <= j < i :: !IsBreak(t[j])
  {
    if t == "" || IsBreak(t[0]) then 0 else 1 + FirstBreak(t[1..])
  }

  function SplitLines(t: string): seq<string>
    decreases |t|
  {
    var i := FirstBreak(t);
    if t == "" then []
    else if i == |t| then [t]
    else if t[i] == '\r' && i + 1 < |t| && t[i + 1] == '\n' then [t[..i]] + SplitLines(t[i + 2..])
    else [t[..i]] + SplitLines(t[i + 1..])
  }

  function FirstEquals(line: string): (i: nat)
    ensures i <= |line| && (i < |line| ==> line[i] == '=') && forall j | 0 <= j < i :: line[j] != '='
  {
    if line == "" || line[0] == '=' then 0 else 1 + FirstEquals(line[1..])
  }

  /** The fields of some lines, added to those already read; none when a line has no `=` or repeats a key. */
  function AddLines(fields: Fields, lines: seq<string>): Option<Fields>
    decreases |lines|
  {
    if lines == [] then Some(fields)
    else
      var i := FirstEquals(lines[0]);
      if i == |lines[0]| || lines[0][..i] in fields then None
      else AddLines(fields[lines[0][..i] := lines[0][i + 1..]], lines[1..])
  }

  // ----- values

  predicate IsDigit(c: char) { '0' <= c <= '9' }

  predicate AllDigits(s: string) { forall c | c in s :: IsDigit(c) }

  predicate IsSha(s: string) { |s| == 64 && forall c | c in s :: IsDigit(c) || 'a' <= c <= 'f' }

  function Numeral(s: string): nat
    requires AllDigits(s)
  {
    if s == "" then 0 else assert s[|s| - 1] in s; Numeral(s[..|s| - 1]) * 10 + (s[|s| - 1] as int - '0' as int)
  }

  predicate IsInteger(s: string, maximum: nat) {
    1 <= |s| <= 13 && AllDigits(s) && s[0] != '0' && Numeral(s) <= maximum
  }

  function MonthLength(year: nat, month: nat): nat {
    if month == 2 then (if year % 4 == 0 && (year % 100 != 0 || year % 400 == 0) then 29 else 28)
    else if month in {4, 6, 9, 11} then 30 else 31
  }

  /** A calendar day in its one canonical spelling. */
  predicate IsDay(s: string) {
    && |s| == 10 && s[4] == '-' && s[7] == '-'
    && AllDigits(s[..4]) && AllDigits(s[5..7]) && AllDigits(s[8..])
    && Numeral(s[..4]) >= 1 && 1 <= Numeral(s[5..7]) <= 12
    && 1 <= Numeral(s[8..]) <= MonthLength(Numeral(s[..4]), Numeral(s[5..7]))
  }

  function AssetName(sha: string): string { "station_thresholds-" + sha + ".sqlite.gz" }

  predicate LegacyValues(f: Fields)
    requires LEGACY <= f.Keys
  {
    && f["release"] == "thresholds-latest" && IsSha(f["sha256"])
    && IsInteger(f["bytes"], MAX_DB_BYTES) && IsInteger(f["active_stations"], 100_000_000)
    && IsInteger(f["threshold_rows"], 10_000_000_000)
  }

  predicate V2Values(f: Fields)
    requires V2 <= f.Keys
  {
    && f["format"] == "sqlite-gzip" && IsSha(f["asset_sha256"]) && f["asset"] == AssetName(f["sha256"])
    && IsInteger(f["asset_bytes"], MAX_ASSET_BYTES)
  }

  /** The checks made on the fields, in their order. */
  function Checked(f: Fields): Result<Fields, Label> {
    if f.Keys != LEGACY && f.Keys != V2 then Err(InvalidManifest)
    else if !LegacyValues(f) then Err(InvalidManifest)
    else if f["last_diff_date"] != "" && !IsDay(f["last_diff_date"]) then Err(InvalidCheckpoint)
    else if f.Keys == V2 && !V2Values(f) then Err(InvalidManifest)
    else Ok(f)
  }

  function Read(text: string): Result<Fields, Label> {
    if |text| > MAX_TEXT || !IsAscii(text) then Err(InvalidManifest)
    else match AddLines(map[], SplitLines(text))
      case None => Err(InvalidManifest)
      case Some(f) => Checked(f)
  }

  /** `read_manifest`. */
  method ReadManifest(text: string) returns (r: Result<Fields, Label>)
    ensures r == Read(text)
  {
    if |text| > MAX_TEXT || !IsAscii(text) {
      return Err(InvalidManifest);
    }
    var lines := SplitLines(text);
    var fields: Fields := map[];
    for i := 0 to |lines|
      invariant AddLines(fields, lines[i..]) == AddLines(map[], lines)
    {
      var line := lines[i];
      assert lines[i..][0] == line && lines[i..][1..] == lines[i + 1..];
      var at := FirstEquals(line);
      if at == |line| || line[..at] in fields {
        return Err(InvalidManifest);
      }
      fields := fields[line[..at] := line[at + 1..]];
    }
    r := Checked(fields);
  }

  // ----- printing

  /** The text `publish_database` writes, with its fields in the order `keys`. */
  function Print(f: Fields, keys: seq<string>): string
    requires forall k | k in keys :: k in f
  {
    if keys == [] then "" else keys[0] + "=" + f[keys[0]] + "\n" + Print(f, keys[1..])
  }

  predicate Unbroken(s: string) { forall c | c in s :: (c as int) < 0x80 && !IsBreak(c) }

  predicate IsKey(s: string) { Unbroken(s) && '=' !in s }

  lemma {:induction false} BreakAfter(line: string, rest: string)
    requires Unbroken(line)
    ensures FirstBreak(line + "\n" + rest) == |line|
  {
    var t := line + "\n" + rest;
    if line == "" {
      assert t[0] == '\n';
    } else {
      assert t[0] == line[0] && t[1..] == line[1..] + "\n" + rest;
      BreakAfter(line[1..], rest);
    }
  }

  lemma SplitFirst(line: string, rest: string)
    requires Unbroken(line)
    ensures SplitLines(line + "\n" + rest) == [line] + SplitLines(rest)
  {
    var t := line + "\n" + rest;
    BreakAfter(line, rest);
    assert t[|line|] == '\n';
    assert t[..|line|] == line && t[|line| + 1..] == rest;
  }

  lemma {:induction false} EqualsAfter(key: string, value: string)
    requires '=' !in key
    ensures FirstEquals(key + "=" + value) == |key|
  {
    var line := key + "=" + value;
    if key == "" {
      assert line[0] == '=';
    } else {
      assert line[0] == key[0] && line[1..] == key[1..] + "=" + value;
      EqualsAfter(key[1..], value);
    }
  }

  /** One printed line in front of others. */
  lemma ReadLine(before: Fields, k: string, v: string, rest: string)
    requires IsKey(k) && Unbroken(v) && k !in before
    ensures AddLines(before, SplitLines(k + "=" + v + "\n" + rest)) == AddLines(before[k := v], SplitLines(rest))
  {
    var line := k + "=" + v;
    SplitFirst(line, rest);
    EqualsAfter(k, v);
    assert line[..|k|] == k && line[|k| + 1..] == v;
    var lines := [line] + SplitLines(rest);
    assert lines[1..] == SplitLines(rest);
    hide SplitLines, FirstEquals;
  }

  /** The part of `f` under `keys`. */
  function Chosen(f: Fields, keys: seq<string>): (g: Fields)
    requires forall k | k in keys :: k in f
    ensures g.Keys == set k | k in keys
  {
    map k | k in keys :: f[k]
  }

  predicate Printable(f: Fields, keys: seq<string>) {
    (forall k | k in keys :: k in f && IsKey(k) && Unbroken(f[k])) && NoRepeats(keys)
  }

  lemma PrintableRest(f: Fields, keys: seq<string>)
    requires Printable(f, keys) && keys != []
    ensures keys[0] in f && IsKey(keys[0]) && Unbroken(f[keys[0]]) && keys[0] !in keys[1..]
    ensures Printable(f, keys[1..])
  {
    var rest := keys[1..];
    assert forall i | 0 <= i < |rest| :: rest[i] == keys[i + 1];
    hide IsKey, Unbroken;
  }

  lemma ChosenStep(f: Fields, keys: seq<string>, before: Fields)
    requires keys != [] && (forall k | k in keys :: k in f) && keys[0] !in keys[1..]
    ensures forall k | k in keys[1..] :: k in f
    ensures before[keys[0] := f[keys[0]]] + Chosen(f, keys[1..]) == before + Chosen(f, keys)
  {
    assert keys == [keys[0]] + keys[1..];
  }

  /** Printed lines read back one by one: no field is split, merged or lost. */
  lemma {:induction false} PrintReadsBack(f: Fields, keys: seq<string>, before: Fields)
    requires Printable(f, keys) && forall k | k in keys :: k !in before
    ensures AddLines(before, SplitLines(Print(f, keys))) == Some(before + Chosen(f, keys))
    decreases |keys|
  {
    if keys == [] {
      assert before + Chosen(f, keys) == before;
    } else {
      PrintableRest(f, keys);
      var k, rest := keys[0], keys[1..];
      assert forall x | x in rest :: x in keys;
      hide SplitLines, IsKey, Unbroken, AddLines, Printable, Chosen;
      ReadLine(before, k, f[k], Print(f, rest));
      PrintReadsBack(f, rest, before[k := f[k]]);
      ChosenStep(f, keys, before);
    }
  }

  lemma AsciiLine(k: string, v: string, rest: string)
    requires IsKey(k) && Unbroken(v) && IsAscii(rest)
    ensures IsAscii(k + "=" + v + "\n" + rest)
  {
    var line := k + "=" + v + "\n" + rest;
    forall c | c in line ensures (c as int) < 0x80 {
      assert c in k || c == '=' || c in v || c == '\n' || c in rest;
    }
  }

  lemma OneMore(n: nat, line: nat)
    ensures (n + 1) * line == n * line + line
  {
  }

  lemma {:induction false} PrintSize(f: Fields, keys: seq<string>, line: nat)
    requires Printable(f, keys) && forall k | k in keys :: |k| + |f[k]| + 2 <= line
    ensures |Print(f, keys)| <= |keys| * line && IsAscii(Print(f, keys))
  {
    if keys != [] {
      PrintableRest(f, keys);
      assert forall x | x in keys[1..] :: x in keys;
      hide IsAscii, IsKey, Unbroken;
      PrintSize(f, keys[1..], line);
      OneMore(|keys[1..]|, line);
      AsciiLine(keys[0], f[keys[0]], Print(f, keys[1..]));
    }
  }

  /** MAIN RESULT on plain texts: within the size bound, any fields without line breaks, under keys
      without `=`, read back as the same map, whatever their order. */
  lemma RoundTrip(f: Fields, keys: seq<string>)
    requires Printable(f, keys) && forall k | k in f :: k in keys
    requires |Print(f, keys)| <= MAX_TEXT && IsAscii(Print(f, keys))
    ensures Read(Print(f, keys)) == Checked(f)
  {
    assert forall k | k in keys :: k in f;
    assert map[] + Chosen(f, keys) == f;
    hide SplitLines, AddLines, Print, IsAscii, Checked, Printable;
    PrintReadsBack(f, keys, map[]);
  }

  // ----- the manifest's own fields

  predicate IsManifest(f: Fields) { Checked(f).Ok? && f.Keys == V2 }

  lemma DigitsUnbroken(s: string)
    requires AllDigits(s) || IsSha(s)
    ensures Unbroken(s)
  {
  }

  lemma DayUnbroken(s: string)
    requires IsDay(s)
    ensures Unbroken(s)
  {
    assert s == s[..4] + ("-" + s[5..7] + "-") + s[8..];
    assert Unbroken("-" + s[5..7] + "-");
  }

  lemma ConcatUnbroken(a: string, b: string)
    requires Unbroken(a) && Unbroken(b)
    ensures Unbroken(a + b)
  {
  }

  lemma KeysFit(k: string)
    requires k in V2
    ensures IsKey(k) && |k| <= 20
  {
  }

  lemma AssetFits(sha: string)
    requires IsSha(sha)
    ensures Unbroken(AssetName(sha)) && |AssetName(sha)| <= 100
  {
    DigitsUnbroken(sha);
    ConcatUnbroken("station_thresholds-", sha);
    ConcatUnbroken("station_thresholds-" + sha, ".sqlite.gz");
  }

  /** What acceptance says of each value, field by field. */
  lemma ManifestValues(f: Fields)
    requires IsManifest(f)
    ensures f.Keys == V2 && f["release"] == "thresholds-latest" && IsSha(f["sha256"]) && f["asset"] == AssetName(f["sha256"])
    ensures IsSha(f["asset_sha256"]) && f["format"] == "sqlite-gzip"
    ensures IsInteger(f["bytes"], MAX_DB_BYTES) && IsInteger(f["active_stations"], 100_000_000)
    ensures IsInteger(f["threshold_rows"], 10_000_000_000) && IsInteger(f["asset_bytes"], MAX_ASSET_BYTES)
    ensures f["last_diff_date"] == "" || IsDay(f["last_diff_date"])
  {
    hide IsSha, IsInteger, IsDay, AssetName;
  }

  lemma ShaFits(s: string)
    requires IsSha(s)
    ensures Unbroken(s) && |s| <= 100
  {
  }

  lemma IntegerFits(s: string, maximum: nat)
    requires IsInteger(s, maximum)
    ensures Unbroken(s) && |s| <= 100
  {
    DigitsUnbroken(s);
  }

  lemma DayFits(s: string)
    requires s == "" || IsDay(s)
    ensures Unbroken(s) && |s| <= 100
  {
    if s != "" {
      DayUnbroken(s);
    }
  }

  lemma ConstantsFit()
    ensures Unbroken("thresholds-latest") && |"thresholds-latest"| <= 100
    ensures Unbroken("sqlite-gzip") && |"sqlite-gzip"| <= 100
  {
  }

  /** Every accepted value is short and free of line breaks. */
  lemma ValuesFit(f: Fields, k: string)
    requires IsManifest(f) && k in f
    ensures Unbroken(f[k]) && |f[k]| <= 100
  {
    ManifestValues(f);
    hide *;
    AssetFits(f["sha256"]);
    ShaFits(f["sha256"]);
    ShaFits(f["asset_sha256"]);
    IntegerFits(f["bytes"], MAX_DB_BYTES);
    IntegerFits(f["active_stations"], 100_000_000);
    IntegerFits(f["threshold_rows"], 10_000_000_000);
    IntegerFits(f["asset_bytes"], MAX_ASSET_BYTES);
    DayFits(f["last_diff_date"]);
    ConstantsFit();
  }

  lemma {:induction false} DistinctCount(keys: seq<string>, s: set<string>)
    requires NoRepeats(keys) && forall k :: k in keys <==> k in s
    ensures |keys| == |s|
  {
    if keys == [] {
      assert s == {};
    } else {
      var rest := keys[1..];
      assert keys == [keys[0]] + rest;
      assert forall i | 0 <= i < |rest| :: rest[i] == keys[i + 1];
      DistinctCount(rest, s - {keys[0]});
    }
  }

  /** MAIN RESULT. Every valid V2 manifest, printed with its fields in any order, reads back as the
      same manifest; the printed text never reaches the size bound. */
  lemma ManifestRoundTrip(f: Fields, keys: seq<string>)
    requires IsManifest(f)
    requires (forall k :: k in keys <==> k in f) && NoRepeats(keys)
    ensures Read(Print(f, keys)) == Ok(f)
    ensures |Print(f, keys)| < MAX_TEXT
  {
    ManifestPrintable(f, keys);
    DistinctCount(keys, f.Keys);
    assert |keys| == 10 by {
      TenFields();
    }
    assert Checked(f) == Ok(f);
    hide *;
    PrintSize(f, keys, 122);
    RoundTrip(f, keys);
  }

  lemma TenFields()
    ensures |V2| == 10
  {
    assert V2 == {"release", "sha256", "bytes", "last_diff_date", "active_stations", "threshold_rows"}
               + {"format", "asset", "asset_sha256", "asset_bytes"};
  }

  lemma ManifestPrintable(f: Fields, keys: seq<string>)
    requires IsManifest(f)
    requires (forall k :: k in keys <==> k in f) && NoRepeats(keys)
    ensures Printable(f, keys) && forall k | k in keys :: k in f && |k| + |f[k]| + 2 <= 122
  {
    assert f.Keys == V2;
    hide IsKey, Unbroken, Checked, V2Values, LegacyValues, IsManifest;
    forall k | k in keys ensures IsKey(k) && Unbroken(f[k]) && |k| + |f[k]| + 2 <= 122 {
      KeysFit(k);
      ValuesFit(f, k);
    }
  }

  /** What was once read can be printed and read again, in any order, without a change. */
  lemma ReadPrintRead(text: string, keys: seq<string>)
    requires Read(text).Ok? && Read(text).value.Keys == V2
    requires (forall k :: k in keys <==> k in Read(text).value) && NoRepeats(keys)
    ensures Read(Print(Read(text).value, keys)) == Read(text)
  {
    assert Checked(Read(text).value) == Read(text);
    hide Read, Checked;
    ManifestRoundTrip(Read(text).value, keys);
  }
}
