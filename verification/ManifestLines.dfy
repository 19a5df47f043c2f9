/** Which texts are manifests: what a line contributes, what makes a text unreadable, and which days there are. */
module ManifestLines {
  import opened Common
  import opened Manifest

  /** The line reads `key=value`; the value may have further equals signs. */
  predicate Says(line: string, key: string, value: string) { line == key + "=" + value && '=' !in key }

  lemma SaysExactly(line: string, key: string, value: string)
    ensures Says(line, key, value) <==>
      FirstEquals(line) < |line| && key == line[..FirstEquals(line)] && value == line[FirstEquals(line) + 1..]
  {
    if Says(line, key, value) {
      SaysWhere(line, key, value);
    }
    if FirstEquals(line) < |line| {
      SaysThere(line);
    }
    hide FirstEquals, Says;
  }

  lemma SaysThere(line: string)
    requires FirstEquals(line) < |line|
    ensures Says(line, line[..FirstEquals(line)], line[FirstEquals(line) + 1..])
  {
    var i := FirstEquals(line);
    var key, value := line[..i], line[i + 1..];
    assert forall j | 0 <= j < i :: key[j] != '=';
    hide FirstEquals;
    JoinAt(line, i);
  }

  lemma JoinAt(line: string, i: nat)
    requires i < |line| && line[i] == '='
    ensures line == line[..i] + "=" + line[i + 1..]
  {
    assert line[..i + 1] == line[..i] + "=";
    assert line == line[..i + 1] + line[i + 1..];
  }

  lemma SaysWhere(line: string, key: string, value: string)
    requires Says(line, key, value)
    ensures FirstEquals(line) == |key| < |line| && line[..|key|] == key && line[|key| + 1..] == value
  {
    assert line[|key|] == '=';
    forall j | 0 <= j < |key| ensures line[j] != '=' {
      assert line[j] == key[j] && key[j] in key;
    }
    hide FirstEquals;
  }

  /** This line has no equals sign, or its key is known or was in an earlier line. */
  ghost predicate Spoils(fields: Fields, lines: seq<string>, i: nat)
    requires i < |lines|
  {
    || '=' !in lines[i]
    || exists key, value :: Says(lines[i], key, value)
         && (key in fields || exists j, other :: 0 <= j < i && Says(lines[j], key, other))
  }

  lemma SpoilsFirst(fields: Fields, lines: seq<string>)
    requires lines != []
    ensures var i := FirstEquals(lines[0]); Spoils(fields, lines, 0) <==> i == |lines[0]| || lines[0][..i] in fields
  {
    var line := lines[0];
    var i := FirstEquals(line);
    if i < |line| {
      SaysExactly(line, line[..i], line[i + 1..]);
      assert line[i] in line;
    } else {
      assert forall j | 0 <= j < |line| :: line[j] != '=';
    }
    forall key, value ensures Says(line, key, value) ==> i < |line| && key == line[..i] {
      SaysExactly(line, key, value);
    }
    hide Says, FirstEquals;
  }

  lemma SpoilsLater(fields: Fields, lines: seq<string>, key: string, value: string, i: nat)
    requires 0 < i < |lines| && Says(lines[0], key, value) && key !in fields
    ensures Spoils(fields, lines, i) <==> Spoils(fields[key := value], lines[1..], i - 1)
  {
    var rest, more := lines[1..], fields[key := value];
    assert forall j | 0 <= j < |rest| :: rest[j] == lines[j + 1];
    forall k, v | Says(lines[i], k, v)
      ensures (k in fields || exists j, other :: 0 <= j < i && Says(lines[j], k, other))
         <==> (k in more || exists j, other :: 0 <= j < i - 1 && Says(rest[j], k, other))
    {
      KeyAgain(fields, lines, key, value, i, k);
    }
    hide Says;
  }

  lemma KeyAgain(fields: Fields, lines: seq<string>, key: string, value: string, i: nat, k: string)
    requires 0 < i < |lines| && Says(lines[0], key, value)
    ensures (k in fields || exists j, other :: 0 <= j < i && Says(lines[j], k, other))
       <==> (k in fields[key := value] || exists j, other :: 0 <= j < i - 1 && Says(lines[1..][j], k, other))
  {
    var rest := lines[1..];
    assert forall j | 0 <= j < |rest| :: rest[j] == lines[j + 1];
    SaysOnce(lines[0], key, value, k);
    hide Says;
    if j, other :| 0 <= j < i && Says(lines[j], k, other) {
      if j > 0 {
        assert Says(rest[j - 1], k, other);
      }
    }
    if j, other :| 0 <= j < i - 1 && Says(rest[j], k, other) {
      assert Says(lines[j + 1], k, other);
    }
  }

  lemma SaysOnce(line: string, key: string, value: string, k: string)
    requires Says(line, key, value)
    ensures forall other | Says(line, k, other) :: k == key && other == value
  {
    SaysExactly(line, key, value);
    forall other | Says(line, k, other) ensures k == key && other == value {
      SaysExactly(line, k, other);
    }
  }

  /** What some readable lines add. */
  ghost predicate Holds(fields: Fields, lines: seq<string>, f: Fields) {
    && (forall k | k in fields :: k in f && f[k] == fields[k])
    && (forall i, k, v | 0 <= i < |lines| && Says(lines[i], k, v) :: k in f && f[k] == v)
    && (forall k | k in f :: k in fields || exists i, v :: 0 <= i < |lines| && Says(lines[i], k, v))
  }

  /** MAIN RESULT. A text is refused for its lines exactly when one of them has no equals sign or repeats a key; otherwise
      the fields are exactly what the lines say. */
  lemma {:induction false} LinesExactly(fields: Fields, lines: seq<string>)
    ensures AddLines(fields, lines).None? <==> exists i :: 0 <= i < |lines| && Spoils(fields, lines, i)
    ensures AddLines(fields, lines).Some? ==> Holds(fields, lines, AddLines(fields, lines).value)
    decreases |lines|
  {
    if lines != [] {
      SpoilsFirst(fields, lines);
      var line, i := lines[0], FirstEquals(lines[0]);
      if !Spoils(fields, lines, 0) {
        var key, value := line[..i], line[i + 1..];
        SaysExactly(line, key, value);
        LinesExactly(fields[key := value], lines[1..]);
        forall j: nat | 0 < j < |lines| ensures Spoils(fields, lines, j) <==> Spoils(fields[key := value], lines[1..], j - 1) {
          SpoilsLater(fields, lines, key, value, j);
        }
        var r := AddLines(fields[key := value], lines[1..]);
        assert r == AddLines(fields, lines);
        var rest, more := lines[1..], fields[key := value];
        hide Spoils, Says, FirstEquals, AddLines;
        if j :| 0 <= j < |rest| && Spoils(more, rest, j) {
          assert Spoils(fields, lines, j + 1);
        }
        if r.Some? {
          HoldsMore(fields, lines, key, value, r.value);
        }
      }
    }
  }

  lemma HoldsMore(fields: Fields, lines: seq<string>, key: string, value: string, f: Fields)
    requires lines != [] && Says(lines[0], key, value) && key !in fields && Holds(fields[key := value], lines[1..], f)
    ensures Holds(fields, lines, f)
  {
    var rest := lines[1..];
    assert forall j | 0 <= j < |rest| :: rest[j] == lines[j + 1];
    forall i, k, v | 0 <= i < |lines| && Says(lines[i], k, v) ensures k in f && f[k] == v {
      if i == 0 {
        SaysOnce(lines[0], key, value, k);
      } else {
        assert Says(rest[i - 1], k, v);
      }
    }
    hide Says;
    forall k | k in f ensures k in fields || exists i, v :: 0 <= i < |lines| && Says(lines[i], k, v) {
      if k == key {
        assert Says(lines[0], k, value);
      } else if k !in fields {
        var i, v :| 0 <= i < |rest| && Says(rest[i], k, v);
        assert Says(lines[i + 1], k, v);
      }
    }
  }

  // ----- days

  /** The days of a month: thirty have September, April, June and November; February has 28, and one more in every
      fourth year but three of four full centuries; all others 31. */
  lemma MonthLengths(year: nat, month: nat)
    requires 1 <= month <= 12
    ensures MonthLength(year, month) == 30 <==> month == 4 || month == 6 || month == 9 || month == 11
    ensures MonthLength(year, month) == 31 <==> month in [1, 3, 5, 7, 8, 10, 12]
    ensures MonthLength(year, 2) == 29 <==> year % 400 == 0 || (year % 4 == 0 && year % 100 != 0)
    ensures MonthLength(year, 2) == 28 || MonthLength(year, 2) == 29
  {
  }

  /** `n` in two digits. */
  function Two(n: nat): string
    requires n < 100
  {
    ["0123456789"[n / 10], "0123456789"[n % 10]]
  }

  function Spelled(year: nat, month: nat, day: nat): string
    requires year < 10_000 && month < 100 && day < 100
  {
    Two(year / 100) + Two(year % 100) + "-" + Two(month) + "-" + Two(day)
  }

  lemma DigitOf(n: nat)
    requires n < 10
    ensures IsDigit("0123456789"[n]) && "0123456789"[n] as int == '0' as int + n
  {
  }

  lemma OfDigit(c: char)
    requires IsDigit(c)
    ensures "0123456789"[c as int - '0' as int] == c
  {
  }

  /** Two digits and the number they spell. */
  lemma TwoSpells(n: nat)
    requires n < 100
    ensures |Two(n)| == 2 && AllDigits(Two(n)) && Numeral(Two(n)) == n
  {
    var s := Two(n);
    DigitOf(n / 10);
    DigitOf(n % 10);
    hide Numeral;
    NumeralOfTwo(s);
  }

  lemma TwoIsSpelled(s: string)
    requires |s| == 2 && AllDigits(s)
    ensures Numeral(s) < 100 && s == Two(Numeral(s))
  {
    hide Numeral;
    assert s[0] in s && s[1] in s;
    OfDigit(s[0]);
    OfDigit(s[1]);
    NumeralOfTwo(s);
    var a, b := s[0] as int - '0' as int, s[1] as int - '0' as int;
    assert Numeral(s) / 10 == a && Numeral(s) % 10 == b;
    assert s == [s[0], s[1]];
  }

  lemma NumeralOfTwo(s: string)
    requires |s| == 2 && AllDigits(s)
    ensures Numeral(s) == (s[0] as int - '0' as int) * 10 + (s[1] as int - '0' as int)
  {
    assert s[0] in s;
    var one := s[..1];
    assert one[..0] == "" && one[0] == s[0];
    assert Numeral(one) == Numeral(one[..0]) * 10 + (s[0] as int - '0' as int);
  }

  lemma NumeralOfFour(s: string)
    requires |s| == 4 && AllDigits(s)
    ensures AllDigits(s[..2]) && AllDigits(s[2..]) && Numeral(s) == Numeral(s[..2]) * 100 + Numeral(s[2..])
  {
    assert forall c | c in s[..2] :: c in s;
    assert forall c | c in s[2..] :: c in s;
    var three := s[..3];
    assert three[..2] == s[..2] && s[..|s| - 1] == three;
    assert s[2] in s;
    NumeralOfTwo(s[2..]);
    assert Numeral(three) == Numeral(s[..2]) * 10 + (s[2] as int - '0' as int);
    assert Numeral(s) == Numeral(three) * 10 + (s[3] as int - '0' as int);
  }

  lemma SpelledParts(year: nat, month: nat, day: nat)
    requires year < 10_000 && month < 100 && day < 100
    ensures var s := Spelled(year, month, day);
      && |s| == 10 && s[4] == '-' && s[7] == '-'
      && s[..4] == Two(year / 100) + Two(year % 100) && s[5..7] == Two(month) && s[8..] == Two(day)
  {
    Five(Two(year / 100), Two(year % 100), Two(month), Two(day));
    hide Two;
  }

  lemma Five(a: string, b: string, c: string, d: string)
    requires |a| == |b| == |c| == |d| == 2
    ensures var s := a + b + "-" + c + "-" + d;
      |s| == 10 && s[4] == '-' && s[7] == '-' && s[..4] == a + b && s[5..7] == c && s[8..] == d
  {
  }

  lemma Halves(a: string, b: string)
    requires |a| == |b| == 2 && AllDigits(a) && AllDigits(b)
    ensures AllDigits(a + b) && Numeral(a + b) == Numeral(a) * 100 + Numeral(b)
  {
    hide Numeral;
    assert (a + b)[..2] == a && (a + b)[2..] == b;
    NumeralOfFour(a + b);
  }

  lemma YearSpelled(year: nat)
    requires year < 10_000
    ensures var s := Two(year / 100) + Two(year % 100); |s| == 4 && AllDigits(s) && Numeral(s) == year
  {
    TwoSpells(year / 100);
    TwoSpells(year % 100);
    hide Numeral, AllDigits, Two;
    Halves(Two(year / 100), Two(year % 100));
  }

  /** A text is a day exactly when it spells a calendar day of a year from 1 to 9999, with leading zeros. */
  lemma DaySpelled(year: nat, month: nat, day: nat)
    requires 1 <= year < 10_000 && 1 <= month <= 12 && 1 <= day <= MonthLength(year, month)
    ensures IsDay(Spelled(year, month, day))
    ensures var s := Spelled(year, month, day); Numeral(s[..4]) == year && Numeral(s[5..7]) == month && Numeral(s[8..]) == day
  {
    assert MonthLength(year, month) <= 31;
    hide Two, Spelled, MonthLength, Numeral, AllDigits;
    SpelledParts(year, month, day);
    YearSpelled(year);
    TwoSpells(month);
    TwoSpells(day);
  }

  lemma YearIsSpelled(s: string)
    requires |s| == 4 && AllDigits(s)
    ensures Numeral(s) < 10_000 && s == Two(Numeral(s) / 100) + Two(Numeral(s) % 100)
  {
    hide Numeral, AllDigits, Two;
    NumeralOfFour(s);
    TwoIsSpelled(s[..2]);
    TwoIsSpelled(s[2..]);
    assert s == s[..2] + s[2..];
    assert Numeral(s) / 100 == Numeral(s[..2]) && Numeral(s) % 100 == Numeral(s[2..]);
  }

  lemma DayIsSpelled(s: string)
    requires IsDay(s)
    ensures var y, m, d := Numeral(s[..4]), Numeral(s[5..7]), Numeral(s[8..]);
      && 1 <= y < 10_000 && 1 <= m <= 12 && 1 <= d <= MonthLength(y, m) <= 31 && s == Spelled(y, m, d)
  {
    assert s == s[..4] + "-" + s[5..7] + "-" + s[8..];
    var m := Numeral(s[5..7]);
    assert 1 <= m <= 12 ==> MonthLength(Numeral(s[..4]), m) <= 31;
    hide Numeral, AllDigits, Two, MonthLength;
    YearIsSpelled(s[..4]);
    TwoIsSpelled(s[5..7]);
    TwoIsSpelled(s[8..]);
  }

  /** A digest is 64 hexadecimal digits in lower case. */
  lemma ShaExactly(s: string)
    ensures IsSha(s) <==> |s| == 64 && forall c | c in s :: c in "0123456789abcdef"
  {
    forall c: char ensures (IsDigit(c) || 'a' <= c <= 'f') <==> c in "0123456789abcdef" {
      HexLetter(c);
    }
  }

  lemma HexLetter(c: char)
    ensures (IsDigit(c) || 'a' <= c <= 'f') <==> c in "0123456789abcdef"
  {
    var all := "0123456789abcdef";
    assert all == ['0', '1', '2', '3', '4', '5', '6', '7', '8', '9', 'a', 'b', 'c', 'd', 'e', 'f'];
  }

  // ----- lines

  /** The line ends of an ASCII text. */
  const ENDS: seq<string> := ["\n", "\r", "\r\n", "\U{000B}", "\U{000C}", "\U{001C}", "\U{001D}", "\U{001E}"]

  /** A text without any of them. */
  predicate Endless(s: string) {
    forall c | c in s :: c as int !in [0x0a, 0x0b, 0x0c, 0x0d, 0x1c, 0x1d, 0x1e]
  }

  /** Each line with its end. */
  function Joined(lines: seq<(string, string)>, last: string): string {
    if lines == [] then last else lines[0].0 + (lines[0].1 + Joined(lines[1..], last))
  }

  /** The lines alone; an empty rest is none. */
  function Texts(lines: seq<(string, string)>, last: string): seq<string> {
    if lines == [] then (if last == "" then [] else [last]) else [lines[0].0] + Texts(lines[1..], last)
  }

  /** A carriage return is a line end of its own only if no line feed follows. */
  ghost predicate Apart(lines: seq<(string, string)>, last: string) {
    lines != [] ==>
      && Endless(lines[0].0) && lines[0].1 in ENDS
      && (lines[0].1 == "\r" ==> Joined(lines[1..], last) == "" || Joined(lines[1..], last)[0] != '\n')
      && Apart(lines[1..], last)
  }

  lemma BreakExactly(c: char)
    ensures IsBreak(c) <==> c as int in [0x0a, 0x0b, 0x0c, 0x0d, 0x1c, 0x1d, 0x1e]
  {
    assert '\n' as int == 0x0a && '\r' as int == 0x0d;
  }

  lemma BreaksAt(line: string, end: string, rest: string)
    requires Endless(line) && end in ENDS
    ensures FirstBreak(line + (end + rest)) == |line|
  {
    var t := line + (end + rest);
    forall j | 0 <= j < |line| ensures !IsBreak(t[j]) {
      assert t[j] == line[j] && line[j] in line;
      BreakExactly(t[j]);
    }
    assert t[|line|] == end[0];
    BreakExactly(end[0]);
  }

  lemma SplitAt(line: string, end: string, rest: string)
    requires Endless(line) && end in ENDS && (end == "\r" ==> rest == "" || rest[0] != '\n')
    ensures SplitLines(line + (end + rest)) == [line] + SplitLines(rest)
  {
    var t := line + (end + rest);
    BreaksAt(line, end, rest);
    assert t[..|line|] == line && t[|line|] == end[0] && t[|line| + |end|..] == rest;
    if |end| == 1 {
      assert end[0] == '\r' && |line| + 1 < |t| ==> t[|line| + 1] == rest[0];
    } else {
      assert end == "\r\n" && t[|line| + 1] == '\n';
    }
    hide FirstBreak;
  }

  lemma NoBreaks(last: string)
    requires Endless(last)
    ensures SplitLines(last) == if last == "" then [] else [last]
  {
    forall j | 0 <= j < |last| ensures !IsBreak(last[j]) {
      assert last[j] in last;
      BreakExactly(last[j]);
    }
    assert FirstBreak(last) == |last|;
  }

  /** MAIN RESULT. A text splits into its lines whatever mixture of line ends it uses, with a last line without an end or not. */
  lemma {:induction false} SplitsJoined(lines: seq<(string, string)>, last: string)
    requires Apart(lines, last) && Endless(last)
    ensures SplitLines(Joined(lines, last)) == Texts(lines, last)
  {
    if lines == [] {
      NoBreaks(last);
    } else {
      SplitAt(lines[0].0, lines[0].1, Joined(lines[1..], last));
      hide SplitLines, Endless;
      SplitsJoined(lines[1..], last);
    }
  }

  /** More than 4096 characters, or one beyond ASCII, are refused unread. */
  lemma UnreadRefused(text: string)
    ensures |text| > 4096 || (exists c | c in text :: c as int >= 0x80) ==> Read(text) == Err(InvalidManifest)
  {
    hide SplitLines, AddLines, Checked;
  }
}
