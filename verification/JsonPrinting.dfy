/** The reader against an independent printer: what is printed by the grammar of RFC 8259, section 2 to 7, in any
    spelling of the characters and with any white space between the tokens, reads back as the value printed. */
module JsonPrinting {
  import opened JsonText
  import JsonLocality

  // ----- the printer

  /** How a text is written: a spelling for every code unit, and the white space put between any two tokens. */
  datatype Style = Style(spell: int -> string, gap: string)

  predicate IsNibble(c: char, n: int) {
    0 <= n < 16 && (c == "0123456789abcdef"[n] || c == "0123456789ABCDEF"[n])
  }

  const ESCAPES: seq<(char, int)> :=
    [('"', 0x22), ('\\', 0x5c), ('/', 0x2f), ('b', 0x08), ('f', 0x0c), ('n', 0x0a), ('r', 0x0d), ('t', 0x09)]

  /** The ways to write one code unit in a string: itself, four hexadecimal digits, or a two-character escape. */
  ghost predicate Spells(s: string, u: int) {
    || (|s| == 1 && s[0] as int == u && 0x20 <= u < 0x1_0000 && s[0] != '"' && s[0] != '\\')
    || (|s| == 6 && s[0] == '\\' && s[1] == 'u' && exists a, b, c, d ::
          IsNibble(s[2], a) && IsNibble(s[3], b) && IsNibble(s[4], c) && IsNibble(s[5], d)
          && u == 0x1000 * a + 0x100 * b + 0x10 * c + d)
    || (|s| == 2 && s[0] == '\\' && (s[1], u) in ESCAPES)
  }

  ghost predicate ValidStyle(y: Style) {
    && (forall u | 0 <= u < 0x1_0000 :: Spells(y.spell(u), u))
    && (forall i | 0 <= i < |y.gap| :: y.gap[i] in " \t\n\r")
  }

  function PrintUnits(y: Style, units: seq<int>): string {
    if units == [] then "" else y.spell(units[0]) + PrintUnits(y, units[1..])
  }

  function PrintText(y: Style, units: seq<int>): string { "\"" + (PrintUnits(y, units) + "\"") }

  function Print(y: Style, v: Value): string
    decreases v, 1
  {
    match v
    case Null => "null"
    case Bool(b) => if b then "true" else "false"
    case Number(token) => token
    case Text(units) => PrintText(y, units)
    case Array(items) => "[" + (y.gap + if items == [] then "]" else PrintItems(y, items))
    case Object(members) => "{" + (y.gap + if members == [] then "}" else PrintMembers(y, members))
  }

  /** The items from one on, with the closing bracket. */
  function PrintItems(y: Style, items: seq<Value>): string
    requires items != []
    decreases items, 0
  {
    Print(y, items[0]) + (y.gap + if |items| == 1 then "]" else "," + (y.gap + PrintItems(y, items[1..])))
  }

  function PrintMembers(y: Style, members: seq<Pair>): string
    requires members != []
    decreases members, 0
  {
    PrintText(y, members[0].name) + (y.gap + (":" + (y.gap + (Print(y, members[0].value)
      + (y.gap + if |members| == 1 then "}" else "," + (y.gap + PrintMembers(y, members[1..])))))))
  }

  // ----- the values that have a text

  predicate Digits(s: string) { s != "" && forall i | 0 <= i < |s| :: '0' <= s[i] <= '9' }

  predicate WholePart(s: string) { s == "0" || (Digits(s) && s[0] != '0') }

  predicate FractionPart(s: string) { s == "" || (s[0] == '.' && Digits(s[1..])) }

  predicate ExponentPart(s: string) {
    s == "" || ((s[0] == 'e' || s[0] == 'E') && (Digits(s[1..]) || (|s| > 1 && (s[1] == '+' || s[1] == '-') && Digits(s[2..]))))
  }

  /** A number of section 6: sign, whole part, fraction and exponent. */
  ghost predicate IsNumber(token: string) {
    exists sign, whole, fraction, exponent ::
      NumberOf(token, sign, whole, fraction, exponent)
  }

  predicate NumberOf(token: string, sign: string, whole: string, fraction: string, exponent: string) {
    && token == sign + whole + fraction + exponent
    && (sign == "" || sign == "-") && WholePart(whole) && FractionPart(fraction) && ExponentPart(exponent)
  }

  predicate IsUnits(units: seq<int>) { forall i | 0 <= i < |units| :: 0 <= units[i] < 0x1_0000 }

  /** Code units are 16 bits wide, numbers are those of the grammar that the rule lets through, and no object has a
      name twice. */
  ghost predicate Sound(v: Value, rule: NumberRule)
    decreases v, 1
  {
    match v
    case Number(token) => IsNumber(token) && rule(token)
    case Text(units) => IsUnits(units)
    case Array(items) => SoundItems(items, rule)
    case Object(members) => Distinct(members) && SoundMembers(members, rule)
    case _ => true
  }

  ghost predicate SoundItems(items: seq<Value>, rule: NumberRule)
    decreases items, 0
  {
    items != [] ==> Sound(items[0], rule) && SoundItems(items[1..], rule)
  }

  ghost predicate SoundMembers(members: seq<Pair>, rule: NumberRule)
    decreases members, 0
  {
    members != [] ==> IsUnits(members[0].name) && Sound(members[0].value, rule) && SoundMembers(members[1..], rule)
  }

  // ----- characters

  lemma StartsAppend(t: string, p: nat, a: string, b: string)
    ensures StartsAt(t, p, a + b) <==> StartsAt(t, p, a) && StartsAt(t, p + |a|, b)
  {
    if StartsAt(t, p, a + b) {
      forall i | 0 <= i < |a| ensures t[p + i] == a[i] {
        assert (a + b)[i] == a[i];
      }
      forall i | 0 <= i < |b| ensures t[p + |a| + i] == b[i] {
        assert (a + b)[|a| + i] == b[i];
      }
    }
  }

  lemma NibbleIsHex(c: char, n: int)
    requires IsNibble(c, n)
    ensures IsHex(c) && HexValue(c) == n
  {
    assert forall i | 0 <= i < 10 :: "0123456789abcdef"[i] as int == '0' as int + i && "0123456789ABCDEF"[i] as int == '0' as int + i;
    assert forall i | 10 <= i < 16 :: "0123456789abcdef"[i] as int == 'a' as int + i - 10;
    assert forall i | 10 <= i < 16 :: "0123456789ABCDEF"[i] as int == 'A' as int + i - 10;
  }

  lemma FirstAt(t: string, p: nat, word: string)
    requires StartsAt(t, p, word) && word != ""
    ensures p < |t| && t[p] == word[0]
  {
    assert t[p + 0] == word[0];
  }

  /** What a scan of a string makes of one more unit in front. */
  function Before(u: int, r: Scan<seq<int>>): Scan<seq<int>> {
    match r
    case Found(rest, end) => Found([u] + rest, end)
    case Refused(why) => Refused(why)
  }

  lemma ReadsHex(t: string, p: nat, s: string, u: int, a: int, b: int, c: int, d: int)
    requires |s| == 6 && s[0] == '\\' && s[1] == 'u' && StartsAt(t, p, s)
    requires IsNibble(s[2], a) && IsNibble(s[3], b) && IsNibble(s[4], c) && IsNibble(s[5], d)
    requires u == 0x1000 * a + 0x100 * b + 0x10 * c + d
    ensures ScanText(t, p) == Before(u, ScanText(t, p + 6))
  {
    FirstAt(t, p, s);
    assert t[p + 1] == s[1] && t[p + 2] == s[2] && t[p + 3] == s[3] && t[p + 4] == s[4] && t[p + 5] == s[5];
    NibbleIsHex(s[2], a);
    NibbleIsHex(s[3], b);
    NibbleIsHex(s[4], c);
    NibbleIsHex(s[5], d);
    hide IsHex, HexValue, IsNibble;
    assert HexAt(t, p + 2) && HexUnit(t, p + 2) == u;
  }

  lemma ReadsEscape(t: string, p: nat, s: string, u: int)
    requires |s| == 2 && s[0] == '\\' && (s[1], u) in ESCAPES && StartsAt(t, p, s)
    ensures ScanText(t, p) == Before(u, ScanText(t, p + 2))
  {
    FirstAt(t, p, s);
    assert t[p + 1] == s[1];
    assert SimpleEscape(s[1]) == u && u >= 0 && s[1] != 'u';
    hide SimpleEscape;
  }

  /** One spelled unit at the front of the rest of a string. */
  lemma ReadsUnit(t: string, p: nat, s: string, u: int)
    requires Spells(s, u) && StartsAt(t, p, s)
    ensures ScanText(t, p) == Before(u, ScanText(t, p + |s|))
  {
    if |s| == 6 {
      var a, b, c, d :| IsNibble(s[2], a) && IsNibble(s[3], b) && IsNibble(s[4], c) && IsNibble(s[5], d)
        && u == 0x1000 * a + 0x100 * b + 0x10 * c + d;
      hide *;
      ReadsHex(t, p, s, u, a, b, c, d);
    } else if |s| == 2 {
      hide *;
      ReadsEscape(t, p, s, u);
    } else {
      hide *;
      ReadsPlain(t, p, s, u);
    }
  }

  lemma ReadsPlain(t: string, p: nat, s: string, u: int)
    requires |s| == 1 && s[0] as int == u && 0x20 <= u < 0x1_0000 && s[0] != '"' && s[0] != '\\' && StartsAt(t, p, s)
    ensures ScanText(t, p) == Before(u, ScanText(t, p + 1))
  {
    FirstAt(t, p, s);
    assert Units(t[p]) == [u];
    hide HexAt, SimpleEscape, StartsAt;
  }

  lemma {:induction false} ReadsUnits(y: Style, t: string, p: nat, units: seq<int>)
    requires ValidStyle(y) && IsUnits(units) && StartsAt(t, p, PrintUnits(y, units) + "\"")
    ensures ScanText(t, p) == Found(units, p + |PrintUnits(y, units)| + 1)
    decreases |units|
  {
    hide *;
    if units == [] {
      ReadsQuote(y, t, p);
    } else {
      var s := FirstUnit(y, units);
      StartsAppend(t, p, s, PrintUnits(y, units[1..]) + "\"");
      ReadsUnit(t, p, s, units[0]);
      ReadsUnits(y, t, p + |s|, units[1..]);
      BeforeFound(units, p + |PrintUnits(y, units)| + 1);
    }
  }

  lemma ReadsQuote(y: Style, t: string, p: nat)
    requires StartsAt(t, p, PrintUnits(y, []) + "\"")
    ensures ScanText(t, p) == Found([], p + |PrintUnits(y, [])| + 1)
  {
    assert PrintUnits(y, []) + "\"" == "\"";
    FirstAt(t, p, "\"");
  }

  lemma FirstUnit(y: Style, units: seq<int>) returns (s: string)
    requires ValidStyle(y) && IsUnits(units) && units != []
    ensures Spells(s, units[0]) && IsUnits(units[1..])
    ensures PrintUnits(y, units) + "\"" == s + (PrintUnits(y, units[1..]) + "\"")
    ensures |PrintUnits(y, units)| == |s| + |PrintUnits(y, units[1..])|
  {
    s := y.spell(units[0]);
    hide Spells;
  }

  lemma BeforeFound(units: seq<int>, end: nat)
    requires units != []
    ensures Before(units[0], Found(units[1..], end)) == Found(units, end)
  {
    assert [units[0]] + units[1..] == units;
  }

  lemma ReadsText(y: Style, t: string, p: nat, units: seq<int>)
    requires ValidStyle(y) && IsUnits(units) && StartsAt(t, p, PrintText(y, units))
    ensures p < |t| && t[p] == '"' && ScanText(t, p + 1) == Found(units, p + |PrintText(y, units)|)
  {
    StartsAppend(t, p, "\"", PrintUnits(y, units) + "\"");
    FirstAt(t, p, "\"");
    hide ValidStyle, ScanText, PrintUnits;
    ReadsUnits(y, t, p + 1, units);
  }

  /** White space is passed up to the first other character. */
  lemma {:induction false} PassesGap(t: string, p: nat, gap: string)
    requires (forall i | 0 <= i < |gap| :: gap[i] in " \t\n\r") && StartsAt(t, p, gap)
    requires p + |gap| < |t| && t[p + |gap|] !in " \t\n\r"
    ensures SkipJsonSpace(t, p) == p + |gap|
    decreases |gap|
  {
    if gap != "" {
      assert t[p] == gap[0];
      forall i | 0 <= i < |gap| - 1 ensures t[p + 1 + i] == gap[1..][i] {
        assert t[p + (i + 1)] == gap[i + 1];
      }
      PassesGap(t, p + 1, gap[1..]);
    }
  }

  // ----- numbers

  /** Behind a printed value comes white space, a comma or a closing bracket. */
  predicate Follows(t: string, q: nat) { q < |t| && t[q] in ",]} \t\n\r" }

  lemma PassesDigits(t: string, p: nat, s: string)
    requires Digits(s) && StartsAt(t, p, s) && p + |s| < |t| && !IsDigit(t[p + |s|])
    ensures SkipDigits(t, p) == p + |s|
  {
    var q := SkipDigits(t, p);
    forall i | p <= i < p + |s| ensures IsDigit(t[i]) {
      assert t[p + (i - p)] == s[i - p];
    }
    hide SkipDigits;
  }

  lemma PartsOf(token: string) returns (sign: string, whole: string, fraction: string, exponent: string)
    requires IsNumber(token)
    ensures NumberOf(token, sign, whole, fraction, exponent)
    ensures (sign == "" || sign == "-") && WholePart(whole) && FractionPart(fraction) && ExponentPart(exponent)
  {
    hide WholePart, FractionPart, ExponentPart;
    sign, whole, fraction, exponent :| NumberOf(token, sign, whole, fraction, exponent);
  }

  lemma NumberBegins(token: string)
    requires IsNumber(token)
    ensures token != "" && (token[0] == '-' || '0' <= token[0] <= '9')
  {
    hide IsNumber, FractionPart, ExponentPart;
    var sign, whole, fraction, exponent := PartsOf(token);
    assert token == sign + (whole + (fraction + exponent));
    assert whole != "" && '0' <= whole[0] <= '9';
  }

  /** The parts of a number stand one behind the other. */
  lemma NumberParts(t: string, p: nat, token: string, sign: string, whole: string, fraction: string, exponent: string)
    requires NumberOf(token, sign, whole, fraction, exponent) && StartsAt(t, p, token) && Follows(t, p + |token|)
    ensures StartsAt(t, p, sign) && StartsAt(t, p + |sign|, whole)
    ensures StartsAt(t, p + |sign| + |whole|, fraction) && StartsAt(t, p + |sign| + |whole| + |fraction|, exponent)
    ensures |token| == |sign| + |whole| + |fraction| + |exponent|
    ensures var f := p + |sign| + |whole| + |fraction|;
      t[f] in ",]} \t\n\r" || (exponent != "" && t[f] == exponent[0])
    ensures var i := p + |sign| + |whole|;
      t[i] in ",]} \t\n\r" || (exponent != "" && t[i] == exponent[0]) || (fraction != "" && t[i] == '.')
  {
    hide StartsAt;
    StartsAppend(t, p, sign + whole + fraction, exponent);
    StartsAppend(t, p, sign + whole, fraction);
    StartsAppend(t, p, sign, whole);
    if exponent != "" {
      FirstAt(t, p + |sign| + |whole| + |fraction|, exponent);
    }
    if fraction != "" {
      FirstAt(t, p + |sign| + |whole|, fraction);
    }
  }

  lemma ReadsWhole(t: string, p: nat, sign: string, whole: string)
    requires (sign == "" || sign == "-") && WholePart(whole)
    requires StartsAt(t, p, sign) && StartsAt(t, p + |sign|, whole)
    requires p + |sign| + |whole| < |t| && !IsDigit(t[p + |sign| + |whole|])
    ensures IntegerEnd(t, p) == p + |sign| + |whole|
    ensures t[p] == '-' || IsDigit(t[p])
    ensures t[p] == '-' ==> p + 1 < |t| && IsDigit(t[p + 1])
  {
    FirstAt(t, p + |sign|, whole);
    if sign != "" {
      FirstAt(t, p, sign);
    }
    if whole != "0" {
      PassesDigits(t, p + |sign|, whole);
    }
    hide SkipDigits, StartsAt;
  }

  lemma ReadsFraction(t: string, i: nat, fraction: string)
    requires FractionPart(fraction) && StartsAt(t, i, fraction)
    requires i + |fraction| < |t| && !IsDigit(t[i + |fraction|]) && t[i + |fraction|] != '.'
    ensures FractionEnd(t, i) == i + |fraction|
  {
    if fraction != "" {
      FirstAt(t, i, fraction);
      assert fraction == "." + fraction[1..];
      StartsAppend(t, i, ".", fraction[1..]);
      FirstAt(t, i + 1, fraction[1..]);
      PassesDigits(t, i + 1, fraction[1..]);
    }
    hide SkipDigits, StartsAt;
  }

  lemma ReadsExponent(t: string, f: nat, exponent: string)
    requires ExponentPart(exponent) && StartsAt(t, f, exponent) && Follows(t, f + |exponent|)
    ensures ExponentEnd(t, f) == f + |exponent|
  {
    if exponent != "" {
      FirstAt(t, f, exponent);
      var k := if Digits(exponent[1..]) then 1 else 2;
      assert exponent == exponent[..k] + exponent[k..];
      StartsAppend(t, f, exponent[..k], exponent[k..]);
      FirstAt(t, f + k, exponent[k..]);
      PassesDigits(t, f + k, exponent[k..]);
      assert t[f + 1] == exponent[1];
    }
    hide SkipDigits, StartsAt;
  }

  lemma ReadsNumber(t: string, p: nat, token: string, rule: NumberRule)
    requires IsNumber(token) && rule(token) && StartsAt(t, p, token) && Follows(t, p + |token|)
    ensures ScanNumber(t, p, rule) == Found(Number(token), p + |token|)
    ensures token != "" && (t[p] == '-' || IsDigit(t[p])) && (t[p] == '-' ==> p + 1 < |t| && IsDigit(t[p + 1]))
  {
    hide *;
    var sign, whole, fraction, exponent := PartsOf(token);
    NumberParts(t, p, token, sign, whole, fraction, exponent);
    SliceAt(t, p, token);
    EndsOf(t, p, sign, whole, fraction, exponent);
    var i := p + |sign| + |whole|;
    NumberAt(t, p, i, i + |fraction|, p + |token|, rule);
  }

  lemma NumberAt(t: string, p: nat, i: nat, f: nat, e: nat, rule: NumberRule)
    requires p < i <= f <= e <= |t| && IntegerEnd(t, p) == i && FractionEnd(t, i) == f && ExponentEnd(t, f) == e
    requires rule(t[p..e])
    ensures ScanNumber(t, p, rule) == Found(Number(t[p..e]), e)
  {
    hide IntegerEnd, FractionEnd, ExponentEnd;
  }

  lemma EndsOf(t: string, p: nat, sign: string, whole: string, fraction: string, exponent: string)
    requires (sign == "" || sign == "-") && WholePart(whole) && FractionPart(fraction) && ExponentPart(exponent)
    requires StartsAt(t, p, sign) && StartsAt(t, p + |sign|, whole)
    requires var i := p + |sign| + |whole|; StartsAt(t, i, fraction) && StartsAt(t, i + |fraction|, exponent)
    requires Follows(t, p + |sign| + |whole| + |fraction| + |exponent|)
    requires var i := p + |sign| + |whole|;
      t[i] in ",]} \t\n\r" || (exponent != "" && t[i] == exponent[0]) || (fraction != "" && t[i] == '.')
    requires var f := p + |sign| + |whole| + |fraction|;
      t[f] in ",]} \t\n\r" || (exponent != "" && t[f] == exponent[0])
    ensures IntegerEnd(t, p) == p + |sign| + |whole| > p
    ensures FractionEnd(t, p + |sign| + |whole|) == p + |sign| + |whole| + |fraction|
    ensures ExponentEnd(t, p + |sign| + |whole| + |fraction|) == p + |sign| + |whole| + |fraction| + |exponent|
    ensures (t[p] == '-' || IsDigit(t[p])) && (t[p] == '-' ==> p + 1 < |t| && IsDigit(t[p + 1]))
  {
    assert exponent != "" ==> exponent[0] == 'e' || exponent[0] == 'E';
    hide StartsAt, IntegerEnd, FractionEnd, ExponentEnd, FractionPart, ExponentPart;
    ReadsWhole(t, p, sign, whole);
    ReadsFraction(t, p + |sign| + |whole|, fraction);
    ReadsExponent(t, p + |sign| + |whole| + |fraction|, exponent);
  }

  lemma NoWord(t: string, p: nat)
    requires p < |t| && (t[p] == '-' || IsDigit(t[p])) && (t[p] == '-' ==> p + 1 < |t| && IsDigit(t[p + 1]))
    ensures forall w | w in ["null", "true", "false", "NaN", "Infinity", "-Infinity"] :: !StartsAt(t, p, w)
  {
    forall w | w in ["null", "true", "false", "NaN", "Infinity", "-Infinity"] ensures !StartsAt(t, p, w) {
      FirstTwo(t, p, w);
    }
  }

  lemma FirstTwo(t: string, p: nat, word: string)
    requires |word| >= 2
    ensures StartsAt(t, p, word) ==> p + 1 < |t| && t[p] == word[0] && t[p + 1] == word[1]
  {
    if StartsAt(t, p, word) {
      assert t[p + 0] == word[0] && t[p + 1] == word[1];
    }
  }

  lemma SliceAt(t: string, p: nat, word: string)
    requires StartsAt(t, p, word)
    ensures t[p..p + |word|] == word
  {
    forall k | 0 <= k < |word| ensures t[p..p + |word|][k] == word[k] {
      assert t[p + k] == word[k];
    }
  }

  // ----- values

  lemma OtherWord(t: string, p: nat, word: string, other: string)
    requires StartsAt(t, p, word) && word != "" && other != "" && word[0] != other[0]
    ensures !StartsAt(t, p, other)
  {
    FirstAt(t, p, word);
    if StartsAt(t, p, other) {
      FirstAt(t, p, other);
    }
  }

  /** How a printed value begins. */
  lemma PrintBegins(y: Style, v: Value, rule: NumberRule)
    requires Sound(v, rule)
    ensures Print(y, v) != "" && Print(y, v)[0] !in " \t\n\r"
    ensures v.Null? || v.Bool? || v.Number? ==> Print(y, v)[0] !in "\"{["
  {
    hide IsUnits, Distinct, IsNumber;
    match v
    case Number(token) => NumberBegins(token);
    case _ =>
  }

  lemma ReadsWord(y: Style, t: string, p: nat, v: Value, rule: NumberRule)
    requires Sound(v, rule) && (v.Null? || v.Bool? || v.Number?) && StartsAt(t, p, Print(y, v))
    requires v.Number? ==> Follows(t, p + |Print(y, v)|)
    ensures ScanValue(t, p, rule) == Found(v, p + |Print(y, v)|)
  {
    PrintBegins(y, v, rule);
    FirstAt(t, p, Print(y, v));
    if v.Number? {
      hide StartsAt, ScanNumber, ScanText, ScanItems, ScanMembers, IsNumber, Follows, ScanWord;
      NumberWord(t, p, v.token, rule);
    } else {
      hide StartsAt, ScanNumber, ScanText, ScanItems, ScanMembers, ScanWord;
      LiteralWord(t, p, if v.Null? then "null" else if v.b then "true" else "false", rule);
    }
  }

  lemma NumberWord(t: string, p: nat, token: string, rule: NumberRule)
    requires IsNumber(token) && rule(token) && StartsAt(t, p, token) && Follows(t, p + |token|)
    ensures ScanWord(t, p, rule) == Found(Number(token), p + |token|)
  {
    hide StartsAt, ScanNumber, IsNumber, Follows;
    ReadsNumber(t, p, token, rule);
    NoWord(t, p);
  }

  lemma LiteralWord(t: string, p: nat, word: string, rule: NumberRule)
    requires word in ["null", "true", "false"] && StartsAt(t, p, word)
    ensures ScanWord(t, p, rule)
         == Found(if word == "null" then Null else Bool(word == "true"), p + |word|)
  {
    hide StartsAt, ScanNumber;
    if word != "null" {
      OtherWord(t, p, word, "null");
    }
    if word == "false" {
      OtherWord(t, p, "false", "true");
    }
  }

  /** From behind a value over the gap to the next token. */
  lemma PassesTo(t: string, q: nat, y: Style, token: string)
    requires ValidStyle(y) && StartsAt(t, q, y.gap + token) && token != "" && token[0] !in " \t\n\r"
    ensures q < |t| && SkipJsonSpace(t, q) == q + |y.gap| < |t|
    ensures StartsAt(t, q + |y.gap|, token) && At(t, q + |y.gap|, token[0])
    ensures token[0] in ",]}" ==> Follows(t, q)
  {
    StartsAppend(t, q, y.gap, token);
    FirstAt(t, q + |y.gap|, token);
    PassesGap(t, q, y.gap);
    if y.gap != "" {
      FirstAt(t, q, y.gap);
    }
    hide SkipJsonSpace, StartsAt;
  }

  lemma {:induction false} ReadsValue(y: Style, t: string, p: nat, v: Value, rule: NumberRule)
    requires ValidStyle(y) && Sound(v, rule) && StartsAt(t, p, Print(y, v))
    requires v.Number? ==> Follows(t, p + |Print(y, v)|)
    ensures ScanValue(t, p, rule) == Found(v, p + |Print(y, v)|)
    decreases v, 1
  {
    hide *;
    SoundInside(v, rule);
    if v.Text? {
      ReadsString(y, t, p, v, rule);
    } else if v == Array([]) || v == Object([]) {
      ReadsEmpty(y, t, p, v, rule);
    } else if v.Array? {
      ArrayOpens(y, t, p, v, v.items, rule);
      ReadsItems(y, t, p + 1 + |y.gap|, v.items, rule);
      ArrayReads(y, t, p, v.items, rule);
    } else if v.Object? {
      ObjectOpens(y, t, p, v, v.members);
      ReadsMembers(y, t, p + 1 + |y.gap|, v.members, rule);
      ObjectReads(y, t, p, v.members, rule);
    } else {
      ReadsWord(y, t, p, v, rule);
    }
  }

  lemma SoundInside(v: Value, rule: NumberRule)
    requires Sound(v, rule)
    ensures v.Array? ==> SoundItems(v.items, rule)
    ensures v.Object? ==> SoundMembers(v.members, rule) && Distinct(v.members)
  {
    hide SoundItems, SoundMembers, Distinct;
  }

  lemma ReadsString(y: Style, t: string, p: nat, v: Value, rule: NumberRule)
    requires ValidStyle(y) && v.Text? && Sound(v, rule) && StartsAt(t, p, Print(y, v))
    ensures ScanValue(t, p, rule) == Found(v, p + |Print(y, v)|)
  {
    hide StartsAt, ScanText, PrintText, ValidStyle, IsUnits, ScanMembers, ScanItems;
    ReadsText(y, t, p, v.units);
  }

  lemma ReadsEmpty(y: Style, t: string, p: nat, v: Value, rule: NumberRule)
    requires ValidStyle(y) && (v == Array([]) || v == Object([])) && StartsAt(t, p, Print(y, v))
    ensures ScanValue(t, p, rule) == Found(v, p + |Print(y, v)|)
  {
    hide StartsAt, SkipJsonSpace, ScanText, ScanItems, ScanMembers, ValidStyle;
    Opens(y, t, p, if v.Array? then "[" else "{", if v.Array? then "]" else "}");
  }

  /** An opening bracket, and white space up to what is inside. */
  lemma Opens(y: Style, t: string, p: nat, open: string, rest: string)
    requires ValidStyle(y) && |open| == 1 && StartsAt(t, p, open + (y.gap + rest))
    requires rest != "" && rest[0] !in " \t\n\r"
    ensures p < |t| && t[p] == open[0] && SkipJsonSpace(t, p + 1) == p + 1 + |y.gap|
    ensures StartsAt(t, p + 1 + |y.gap|, rest) && At(t, p + 1 + |y.gap|, rest[0])
  {
    StartsAppend(t, p, open, y.gap + rest);
    FirstAt(t, p, open);
    PassesTo(t, p + 1, y, rest);
    hide SkipJsonSpace, StartsAt;
  }

  lemma ItemsText(y: Style, items: seq<Value>, rule: NumberRule) returns (rest: string)
    requires items != [] && SoundItems(items, rule)
    ensures PrintItems(y, items) == Print(y, items[0]) + (y.gap + rest)
    ensures rest == if |items| == 1 then "]" else "," + (y.gap + PrintItems(y, items[1..]))
    ensures PrintItems(y, items) != "" && PrintItems(y, items)[0] !in " \t\n\r]"
    ensures Sound(items[0], rule) && SoundItems(items[1..], rule)
  {
    rest := if |items| == 1 then "]" else "," + (y.gap + PrintItems(y, items[1..]));
    PrintBegins(y, items[0], rule);
    NoBracket(y, items[0], rule);
    hide Print;
  }

  lemma NoBracket(y: Style, v: Value, rule: NumberRule)
    requires Sound(v, rule)
    ensures Print(y, v) != "" && Print(y, v)[0] !in ",]}:"
  {
    hide IsUnits, Distinct, IsNumber;
    match v
    case Number(token) => NumberBegins(token);
    case _ =>
  }

  lemma ArrayOpens(y: Style, t: string, p: nat, v: Value, items: seq<Value>, rule: NumberRule)
    requires ValidStyle(y) && v == Array(items) && items != [] && SoundItems(items, rule) && StartsAt(t, p, Print(y, v))
    ensures p < |t| && t[p] == '[' && SkipJsonSpace(t, p + 1) == p + 1 + |y.gap|
    ensures StartsAt(t, p + 1 + |y.gap|, PrintItems(y, items))
    ensures p + 1 + |y.gap| < |t| && t[p + 1 + |y.gap|] != ']'
    ensures |Print(y, v)| == 1 + |y.gap| + |PrintItems(y, items)|
  {
    var rest := ItemsText(y, items, rule);
    assert Print(y, v) == "[" + (y.gap + PrintItems(y, items));
    hide SkipJsonSpace, StartsAt, Print, PrintItems, ValidStyle, SoundItems;
    Opens(y, t, p, "[", PrintItems(y, items));
  }

  lemma ArrayReads(y: Style, t: string, p: nat, items: seq<Value>, rule: NumberRule)
    requires p < |t| && t[p] == '[' && SkipJsonSpace(t, p + 1) == p + 1 + |y.gap|
    requires p + 1 + |y.gap| < |t| && t[p + 1 + |y.gap|] != ']'
    requires items != [] && ScanItems(t, p + 1 + |y.gap|, rule) == Found(items, p + 1 + |y.gap| + |PrintItems(y, items)|)
    ensures ScanValue(t, p, rule) == Found(Array(items), p + 1 + |y.gap| + |PrintItems(y, items)|)
  {
    hide SkipJsonSpace, ScanItems, ScanMembers, ScanText, PrintItems;
  }

  lemma ItemsParts(y: Style, t: string, p: nat, items: seq<Value>, rule: NumberRule) returns (q: nat, rest: string)
    requires ValidStyle(y) && items != [] && SoundItems(items, rule) && StartsAt(t, p, PrintItems(y, items))
    ensures Sound(items[0], rule) && SoundItems(items[1..], rule) && p <= |t|
    ensures q == p + |Print(y, items[0])| && StartsAt(t, p, Print(y, items[0])) && Follows(t, q)
    ensures q <= |t| && SkipJsonSpace(t, q) == q + |y.gap| < |t| && At(t, q + |y.gap|, if |items| == 1 then ']' else ',')
    ensures rest == (if |items| == 1 then "]" else "," + (y.gap + PrintItems(y, items[1..]))) && StartsAt(t, q + |y.gap|, rest)
    ensures p + |PrintItems(y, items)| == q + |y.gap| + |rest|
  {
    hide *;
    rest := ItemsText(y, items, rule);
    q := p + |Print(y, items[0])|;
    StartsAppend(t, p, Print(y, items[0]), y.gap + rest);
    PassesTo(t, q, y, rest);
  }

  lemma NextItems(y: Style, t: string, r: nat, items: seq<Value>, rule: NumberRule)
    requires ValidStyle(y) && items != [] && SoundItems(items, rule)
    requires StartsAt(t, r, "," + (y.gap + PrintItems(y, items)))
    ensures r < |t| && SkipJsonSpace(t, r + 1) == r + 1 + |y.gap| && StartsAt(t, r + 1 + |y.gap|, PrintItems(y, items))
  {
    hide *;
    var more := ItemsText(y, items, rule);
    Opens(y, t, r, ",", PrintItems(y, items));
  }

  lemma FirstItem(items: seq<Value>)
    requires items != []
    ensures items[0] in items && items == [items[0]] + items[1..] && (|items| == 1 ==> items == [items[0]])
  {
  }

  lemma {:induction false} ReadsItems(y: Style, t: string, p: nat, items: seq<Value>, rule: NumberRule)
    requires ValidStyle(y) && items != [] && SoundItems(items, rule) && StartsAt(t, p, PrintItems(y, items))
    ensures ScanItems(t, p, rule) == Found(items, p + |PrintItems(y, items)|)
    decreases items, 0
  {
    hide *;
    var q, rest := ItemsParts(y, t, p, items, rule);
    FirstItem(items);
    ReadsValue(y, t, p, items[0], rule);
    if |items| > 1 {
      var r := q + |y.gap|;
      NextItems(y, t, r, items[1..], rule);
      ReadsItems(y, t, r + 1 + |y.gap|, items[1..], rule);
      JsonLocality.MoreItems(t, p, rule, items[0], q, items[1..], p + |PrintItems(y, items)|);
    } else {
      JsonLocality.LastItem(t, p, rule, items[0], q);
    }
  }

  lemma NameParts(y: Style, t: string, p: nat, name: seq<int>, rest: string)
    requires ValidStyle(y) && IsUnits(name) && rest != "" && rest[0] !in " \t\n\r"
    requires StartsAt(t, p, PrintText(y, name) + (y.gap + (":" + (y.gap + rest))))
    ensures var begin := p + |PrintText(y, name)| + |y.gap| + 1 + |y.gap|;
      ScanName(t, p) == Found(name, begin) && StartsAt(t, begin, rest)
  {
    var after := ":" + (y.gap + rest);
    hide SkipJsonSpace, StartsAt, PrintText, ScanText;
    StartsAppend(t, p, PrintText(y, name), y.gap + after);
    ReadsText(y, t, p, name);
    PassesTo(t, p + |PrintText(y, name)|, y, after);
    Opens(y, t, p + |PrintText(y, name)| + |y.gap|, ":", rest);
  }

  lemma MembersText(y: Style, members: seq<Pair>, rule: NumberRule) returns (rest: string)
    requires members != [] && SoundMembers(members, rule)
    ensures PrintMembers(y, members)
         == PrintText(y, members[0].name) + (y.gap + (":" + (y.gap + (Print(y, members[0].value) + (y.gap + rest)))))
    ensures rest == if |members| == 1 then "}" else "," + (y.gap + PrintMembers(y, members[1..]))
    ensures PrintMembers(y, members) != "" && PrintMembers(y, members)[0] == '"'
    ensures Print(y, members[0].value) != "" && Print(y, members[0].value)[0] !in " \t\n\r"
    ensures IsUnits(members[0].name) && Sound(members[0].value, rule) && SoundMembers(members[1..], rule)
  {
    rest := if |members| == 1 then "}" else "," + (y.gap + PrintMembers(y, members[1..]));
    PrintBegins(y, members[0].value, rule);
    assert PrintText(y, members[0].name)[0] == '"';
    hide Print, PrintText;
  }

  lemma ObjectOpens(y: Style, t: string, p: nat, v: Value, members: seq<Pair>)
    requires ValidStyle(y) && v == Object(members) && members != [] && StartsAt(t, p, Print(y, v))
    ensures p < |t| && t[p] == '{' && SkipJsonSpace(t, p + 1) == p + 1 + |y.gap|
    ensures StartsAt(t, p + 1 + |y.gap|, PrintMembers(y, members))
    ensures p + 1 + |y.gap| < |t| && t[p + 1 + |y.gap|] != '}'
    ensures |Print(y, v)| == 1 + |y.gap| + |PrintMembers(y, members)|
  {
    assert PrintMembers(y, members)[0] == '"';
    assert Print(y, v) == "{" + (y.gap + PrintMembers(y, members));
    hide SkipJsonSpace, StartsAt, Print, PrintMembers, ValidStyle;
    Opens(y, t, p, "{", PrintMembers(y, members));
  }

  lemma ObjectReads(y: Style, t: string, p: nat, members: seq<Pair>, rule: NumberRule)
    requires p < |t| && t[p] == '{' && SkipJsonSpace(t, p + 1) == p + 1 + |y.gap|
    requires p + 1 + |y.gap| < |t| && t[p + 1 + |y.gap|] != '}'
    requires members != [] && Distinct(members)
    requires ScanMembers(t, p + 1 + |y.gap|, rule) == Found(members, p + 1 + |y.gap| + |PrintMembers(y, members)|)
    ensures ScanValue(t, p, rule) == Found(Object(members), p + 1 + |y.gap| + |PrintMembers(y, members)|)
  {
    hide SkipJsonSpace, ScanItems, ScanMembers, ScanText, PrintMembers;
  }

  lemma MembersParts(y: Style, t: string, p: nat, members: seq<Pair>, rule: NumberRule)
    returns (begin: nat, q: nat, rest: string)
    requires ValidStyle(y) && members != [] && SoundMembers(members, rule) && StartsAt(t, p, PrintMembers(y, members))
    ensures Sound(members[0].value, rule) && SoundMembers(members[1..], rule) && p <= |t|
    ensures begin <= |t| && ScanName(t, p) == Found(members[0].name, begin)
    ensures q == begin + |Print(y, members[0].value)| && StartsAt(t, begin, Print(y, members[0].value)) && Follows(t, q)
    ensures q <= |t| && SkipJsonSpace(t, q) == q + |y.gap| < |t| && At(t, q + |y.gap|, if |members| == 1 then '}' else ',')
    ensures rest == (if |members| == 1 then "}" else "," + (y.gap + PrintMembers(y, members[1..])))
    ensures StartsAt(t, q + |y.gap|, rest) && p + |PrintMembers(y, members)| == q + |y.gap| + |rest|
  {
    hide *;
    rest := MembersText(y, members, rule);
    var name, value := PrintText(y, members[0].name), Print(y, members[0].value);
    begin := p + |name| + |y.gap| + 1 + |y.gap|;
    q := begin + |value|;
    NameParts(y, t, p, members[0].name, value + (y.gap + rest));
    StartsAppend(t, begin, value, y.gap + rest);
    PassesTo(t, q, y, rest);
  }

  lemma NextMembers(y: Style, t: string, r: nat, members: seq<Pair>, rule: NumberRule)
    requires ValidStyle(y) && members != [] && SoundMembers(members, rule)
    requires StartsAt(t, r, "," + (y.gap + PrintMembers(y, members)))
    ensures r < |t| && SkipJsonSpace(t, r + 1) == r + 1 + |y.gap| && StartsAt(t, r + 1 + |y.gap|, PrintMembers(y, members))
  {
    hide *;
    var more := MembersText(y, members, rule);
    Opens(y, t, r, ",", PrintMembers(y, members));
  }

  lemma FirstMember(members: seq<Pair>)
    requires members != []
    ensures members == [Pair(members[0].name, members[0].value)] + members[1..]
    ensures |members| == 1 ==> members == [Pair(members[0].name, members[0].value)]
  {
    assert members == [members[0]] + members[1..];
  }

  lemma {:induction false} ReadsMembers(y: Style, t: string, p: nat, members: seq<Pair>, rule: NumberRule)
    requires ValidStyle(y) && members != [] && SoundMembers(members, rule) && StartsAt(t, p, PrintMembers(y, members))
    ensures ScanMembers(t, p, rule) == Found(members, p + |PrintMembers(y, members)|)
    decreases members, 0
  {
    hide *;
    var begin, q, rest := MembersParts(y, t, p, members, rule);
    assert members[0] in members;
    FirstMember(members);
    var name, value := members[0].name, members[0].value;
    ReadsValue(y, t, begin, value, rule);
    if |members| > 1 {
      var r := q + |y.gap|;
      NextMembers(y, t, r, members[1..], rule);
      ReadsMembers(y, t, r + 1 + |y.gap|, members[1..], rule);
      JsonLocality.MoreMembers(t, p, rule, name, begin, value, q, members[1..], p + |PrintMembers(y, members)|);
    } else {
      JsonLocality.LastMember(t, p, rule, name, begin, value, q);
    }
  }

  // ----- documents

  /** The white space allowed around a document; only four of these may stand between the tokens. */
  const BLANKS: seq<int> :=
    [0x09, 0x0a, 0x0b, 0x0c, 0x0d, 0x1c, 0x1d, 0x1e, 0x1f, 0x20, 0x85, 0xa0, 0x1680,
     0x2000, 0x2001, 0x2002, 0x2003, 0x2004, 0x2005, 0x2006, 0x2007, 0x2008, 0x2009, 0x200a,
     0x2028, 0x2029, 0x202f, 0x205f, 0x3000]

  predicate Blank(s: string) { forall i | 0 <= i < |s| :: s[i] as int in BLANKS }

  lemma BlankExactly(c: char)
    ensures IsSpace(c) <==> c as int in BLANKS
  {
    BlankIndex(c as int);
    assert '\t' as int == 9 && '\r' as int == 13;
  }

  lemma BlankIndex(n: int)
    ensures 0x09 <= n <= 0x0d ==> BLANKS[n - 0x09] == n && n in BLANKS
    ensures 0x1c <= n <= 0x20 ==> BLANKS[n - 0x1c + 5] == n && n in BLANKS
    ensures 0x2000 <= n <= 0x200a ==> BLANKS[n - 0x2000 + 13] == n && n in BLANKS
  {
  }

  /** Blanks are passed up to the first other character or the end. */
  lemma {:induction false} PassesBlank(t: string, p: nat, s: string)
    requires Blank(s) && StartsAt(t, p, s)
    requires p + |s| == |t| || !IsSpace(t[p + |s|])
    ensures SkipSpace(t, p) == p + |s|
    decreases |s|
  {
    if s != "" {
      assert t[p + 0] == s[0];
      BlankExactly(t[p]);
      forall i | 0 <= i < |s| - 1 ensures t[p + 1 + i] == s[1..][i] {
        assert t[p + (i + 1)] == s[i + 1];
      }
      hide IsSpace;
      PassesBlank(t, p + 1, s[1..]);
    }
  }

  lemma StopsBefore(t: string, p: nat)
    requires p <= |t| && SkipSpace(t, p) == |t|
    ensures Blank(t[p..])
  {
    forall i | 0 <= i < |t| - p ensures t[p..][i] as int in BLANKS {
      assert t[p..][i] == t[p + i];
      BlankExactly(t[p + i]);
    }
    hide SkipSpace, IsSpace;
  }

  lemma PrintedAt(before: string, text: string, after: string)
    ensures var t := before + (text + after);
      && StartsAt(t, 0, before) && StartsAt(t, |before|, text)
      && |t| == |before| + |text| + |after| && t[|before| + |text|..] == after
  {
    var t := before + (text + after);
    assert forall i | 0 <= i < |before| :: t[0 + i] == before[i];
    assert forall i | 0 <= i < |text| :: t[|before| + i] == text[i];
  }

  lemma OpensDocument(y: Style, v: Value)
    requires v.Object? || v.Array? || v.Text?
    ensures Print(y, v) != "" && !IsSpace(Print(y, v)[0])
  {
    hide PrintItems, PrintMembers, PrintUnits;
  }

  lemma AroundPrinted(y: Style, before: string, v: Value, after: string, rule: NumberRule)
    requires ValidStyle(y) && Sound(v, rule) && Blank(before) && (v.Object? || v.Array? || v.Text?)
    ensures var t := before + (Print(y, v) + after);
      && SkipSpace(t, 0) == |before| && ScanValue(t, |before|, rule) == Found(v, |before| + |Print(y, v)|)
      && (SkipSpace(t, |before| + |Print(y, v)|) == |t| <==> Blank(after))
  {
    hide *;
    var text := Print(y, v);
    var t := before + (text + after);
    PrintedAt(before, text, after);
    OpensDocument(y, v);
    assert t[|before|] == text[0];
    PassesBlank(t, 0, before);
    ReadsValue(y, t, |before|, v, rule);
    BlankBehind(t, |before| + |text|, after);
  }

  lemma BlankBehind(t: string, p: nat, s: string)
    requires p <= |t| && t[p..] == s
    ensures SkipSpace(t, p) == |t| <==> Blank(s)
  {
    hide *;
    if Blank(s) {
      WholeAt(t, p, s);
      PassesBlank(t, p, s);
    }
    if SkipSpace(t, p) == |t| {
      StopsBefore(t, p);
    }
  }

  lemma WholeAt(t: string, p: nat, s: string)
    requires p <= |t| && t[p..] == s
    ensures StartsAt(t, p, s) && p + |s| == |t|
  {
    assert forall i | 0 <= i < |s| :: t[p + i] == t[p..][i];
  }

  /** MAIN RESULT. A value printed in any style, with blanks before it and any text behind, is refused for its size, for
      not being one object with blanks around it, for its depth or for its nodes, in this order; and otherwise it is read
      back as itself. */
  lemma DocumentReadsPrinted(y: Style, before: string, v: Value, after: string, rule: NumberRule)
    requires ValidStyle(y) && Sound(v, rule) && Blank(before) && (v.Object? || v.Array? || v.Text?)
    ensures var t := before + (Print(y, v) + after);
      Document(t, rule) ==
        if Bytes(t) > 8 * 1024 * 1024 then Refused(DocumentSize)
        else if !v.Object? || !Blank(after) then Refused(DocumentShape)
        else if Height(v) > 64 then Refused(DocumentDepth)
        else if Nodes(v) > 1_000_000 then Refused(DocumentNodes)
        else Found(v, |before| + |Print(y, v)|)
  {
    hide Print, SkipSpace, ScanValue, Bytes, Height, Nodes, Sound, ValidStyle, Blank;
    AroundPrinted(y, before, v, after, rule);
  }

  // ----- what is read is sound

  lemma HexBounds(t: string, p: nat)
    requires HexAt(t, p)
    ensures 0 <= HexUnit(t, p) < 0x1_0000
  {
    assert forall i | p <= i < p + 4 :: 0 <= HexValue(t[i]) < 16;
    hide HexValue, IsHex;
  }

  lemma {:induction false} UnitsAreSound(t: string, p: nat)
    requires p <= |t| && ScanText(t, p).Found?
    ensures IsUnits(ScanText(t, p).value)
    decreases |t| - p
  {
    if t[p] == '"' {
    } else if t[p] != '\\' {
      UnitsAreSound(t, p + 1);
      hide HexUnit, SimpleEscape, HexAt;
    } else if At(t, p + 1, 'u') && HexAt(t, p + 2) {
      UnitsAreSound(t, p + 6);
      HexBounds(t, p + 2);
      hide HexUnit, SimpleEscape, HexAt;
    } else {
      UnitsAreSound(t, p + 2);
      assert SimpleEscape(t[p + 1]) < 0x1_0000;
      hide HexUnit, SimpleEscape, HexAt;
    }
  }

  lemma DigitsFrom(t: string, p: nat)
    requires p < |t| && IsDigit(t[p])
    ensures p < SkipDigits(t, p) && Digits(t[p..SkipDigits(t, p)])
  {
    var q := SkipDigits(t, p);
    forall i | 0 <= i < q - p ensures '0' <= t[p..q][i] <= '9' {
      assert t[p..q][i] == t[p + i];
    }
  }

  lemma WholeIsSound(t: string, p: nat)
    requires p <= |t| && IntegerEnd(t, p) != p
    ensures var i, d := IntegerEnd(t, p), if At(t, p, '-') then p + 1 else p;
      d < i && WholePart(t[d..i]) && (t[p..d] == "" || t[p..d] == "-")
  {
    var d := if At(t, p, '-') then p + 1 else p;
    if At(t, d, '0') {
      assert t[d..d + 1] == "0";
    } else {
      DigitsFrom(t, d);
    }
    hide SkipDigits;
  }

  lemma FractionIsSound(t: string, i: nat)
    requires i <= |t|
    ensures FractionPart(t[i..FractionEnd(t, i)])
  {
    var f := FractionEnd(t, i);
    if f != i {
      DigitsFrom(t, i + 1);
      assert t[i..f][1..] == t[i + 1..f];
    }
    hide SkipDigits;
  }

  lemma ExponentIsSound(t: string, f: nat)
    requires f <= |t|
    ensures ExponentPart(t[f..ExponentEnd(t, f)])
  {
    var e := ExponentEnd(t, f);
    if e != f {
      var d := if At(t, f + 1, '+') || At(t, f + 1, '-') then f + 2 else f + 1;
      DigitsFrom(t, d);
      assert t[f..e][d - f..] == t[d..e];
    }
    hide SkipDigits;
  }

  lemma NumberIsSound(t: string, p: nat, rule: NumberRule)
    requires p <= |t| && ScanNumber(t, p, rule).Found?
    ensures Sound(ScanNumber(t, p, rule).value, rule)
  {
    var d := if At(t, p, '-') then p + 1 else p;
    var i := IntegerEnd(t, p);
    var f := FractionEnd(t, i);
    var e := ExponentEnd(t, f);
    WholeIsSound(t, p);
    FractionIsSound(t, i);
    ExponentIsSound(t, f);
    hide IntegerEnd, FractionEnd, ExponentEnd, WholePart, FractionPart, ExponentPart, Digits;
    FourParts(t, p, d, i, f, e);
    assert NumberOf(t[p..e], t[p..d], t[d..i], t[i..f], t[f..e]);
  }

  lemma FourParts(t: string, p: nat, d: nat, i: nat, f: nat, e: nat)
    requires p <= d <= i <= f <= e <= |t|
    ensures t[p..e] == t[p..d] + t[d..i] + t[i..f] + t[f..e]
  {
    assert t[p..i] == t[p..d] + t[d..i];
    assert t[p..f] == t[p..i] + t[i..f];
    assert t[p..e] == t[p..f] + t[f..e];
  }

  lemma {:induction false} ValueIsSound(t: string, p: nat, rule: NumberRule)
    requires p <= |t| && ScanValue(t, p, rule).Found?
    ensures Sound(ScanValue(t, p, rule).value, rule)
    decreases |t| - p, 0
  {
    if t[p] == '"' {
      UnitsAreSound(t, p + 1);
      hide ScanText, IsUnits;
    } else if t[p] == '{' {
      var q := SkipJsonSpace(t, p + 1);
      hide SkipJsonSpace, ScanMembers, ScanText, ScanItems, Distinct;
      if !At(t, q, '}') {
        MembersAreSound(t, q, rule);
      }
    } else if t[p] == '[' {
      var q := SkipJsonSpace(t, p + 1);
      hide SkipJsonSpace, ScanMembers, ScanText, ScanItems, Distinct;
      if !At(t, q, ']') {
        ItemsAreSound(t, q, rule);
      }
    } else {
      hide ScanNumber, StartsAt, ScanMembers, ScanText, ScanItems;
      if ScanValue(t, p, rule) == ScanNumber(t, p, rule) {
        NumberIsSound(t, p, rule);
      }
    }
  }

  lemma {:induction false} ItemsAreSound(t: string, p: nat, rule: NumberRule)
    requires p <= |t| && ScanItems(t, p, rule).Found?
    ensures SoundItems(ScanItems(t, p, rule).value, rule)
    decreases |t| - p, 1
  {
    var item, after, q, rest := JsonLocality.ItemsParts(t, p, rule);
    ValueIsSound(t, p, rule);
    hide ScanValue, ScanItems, SkipJsonSpace, Sound;
    if t[q] != ']' {
      ItemsAreSound(t, SkipJsonSpace(t, q + 1), rule);
      assert ([item] + rest)[1..] == rest;
    } else {
      assert [item][1..] == [];
    }
  }

  lemma {:induction false} MembersAreSound(t: string, p: nat, rule: NumberRule)
    requires p <= |t| && ScanMembers(t, p, rule).Found?
    ensures SoundMembers(ScanMembers(t, p, rule).value, rule)
    decreases |t| - p, 1
  {
    var name, begin, value, after, q, rest := JsonLocality.MembersParts(t, p, rule);
    NameIsSound(t, p);
    ValueIsSound(t, begin, rule);
    hide ScanValue, ScanMembers, ScanName, SkipJsonSpace, Sound, IsUnits;
    var one := Pair(name, value);
    if t[q] != '}' {
      MembersAreSound(t, SkipJsonSpace(t, q + 1), rule);
      assert ([one] + rest)[1..] == rest;
    } else {
      assert [one][1..] == [];
    }
  }

  lemma NameIsSound(t: string, p: nat)
    requires p <= |t| && ScanName(t, p).Found?
    ensures IsUnits(ScanName(t, p).value)
  {
    UnitsAreSound(t, p + 1);
    hide ScanText, SkipJsonSpace, IsUnits;
  }

  /** MAIN RESULT. Whatever document was read can be printed in any other style within the size limit, and that text
      reads as the same value: spelling and white space carry nothing. */
  lemma ReprintReads(y: Style, t: string, rule: NumberRule)
    requires ValidStyle(y) && Document(t, rule).Found? && Bytes(Print(y, Document(t, rule).value)) <= 8 * 1024 * 1024
    ensures var v := Document(t, rule).value; Document(Print(y, v), rule) == Found(v, |Print(y, v)|)
  {
    ValueIsSound(t, SkipSpace(t, 0), rule);
    hide SkipSpace, ScanValue, Print, Bytes, Height, Nodes, Sound;
    var v := Document(t, rule).value;
    assert "" + (Print(y, v) + "") == Print(y, v);
    DocumentReadsPrinted(y, "", v, "", rule);
  }

  /** A character beyond the first plane is read as its two surrogates. */
  lemma SurrogatesOf(c: char)
    requires c as int >= 0x1_0000
    ensures var units := Units(c);
      && |units| == 2 && 0xd800 <= units[0] < 0xdc00 <= units[1] < 0xe000
      && (units[0] - 0xd800) * 0x400 + (units[1] - 0xdc00) + 0x1_0000 == c as int
  {
  }
}
