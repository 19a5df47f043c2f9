/** The JSON reader behind the lossless import: a scanner that works on positions of the
    original text, the document checks made around it, and the values it returns.

    A value keeps every number as its original token and every string as the UTF-16 code
    units it denotes, so two equal values are equal for the importer as well. */
module JsonText {

  datatype Value =
    | Null
    | Bool(b: bool)
    | Number(token: string)
    | Text(units: seq<int>)
    | Array(items: seq<Value>)
    | Object(members: seq<Pair>)

  datatype Pair = Pair(name: seq<int>, value: Value)

  /** The fixed refusal codes of the importer that concern the text of a document. */
  datatype Refusal =
    | DocumentSize | DocumentJson | DocumentShape | DocumentDepth | DocumentNodes
    | DuplicateKey | UnsafeNumber | NonfiniteNumber
    | MemberColon | MemberSeparator | MissingMember
    | StateDraftsShape | DraftsSpan | DraftPreservation | StatePreservation

  /** What one scan yields: a value and the position just behind it, or a refusal. */
  datatype Scan<+T> = Found(value: T, end: nat) | Refused(why: Refusal) {
    predicate IsFailure() { Refused? }
    function PropagateFailure<U>(): Scan<U>
      requires Refused?
    {
      Refused(why)
    }
    function Extract(): (T, nat)
      requires Found?
    {
      (value, end)
    }
  }

  /** Which number tokens the hook `_number` lets through; its verdict depends on the token alone. */
  type NumberRule = string -> bool

  const MAX_BYTES: nat := 8 * 1024 * 1024
  const MAX_DEPTH: nat := 64
  const MAX_NODES: nat := 1_000_000

  // ----- characters

  /** White space of RFC 8259, section 2: what the scanner skips between tokens. */
  predicate IsJsonSpace(c: char) {
    c == ' ' || c == '\t' || c == '\n' || c == '\r'
  }

  /** White space as `str.isspace`, `str.strip` and `str.lstrip` understand it. */
  predicate IsSpace(c: char) {
    || '\t' <= c <= '\r'
    || 0x1c <= c as int <= 0x20
    || c as int == 0x85 || c as int == 0xa0 || c as int == 0x1680
    || 0x2000 <= c as int <= 0x200a
    || c as int in {0x2028, 0x2029, 0x202f, 0x205f, 0x3000}
  }

  predicate IsDigit(c: char) { '0' <= c <= '9' }

  predicate IsHex(c: char) {
    IsDigit(c) || 'a' <= c <= 'f' || 'A' <= c <= 'F'
  }

  function HexValue(c: char): int
    requires IsHex(c)
  {
    if IsDigit(c) then c as int - '0' as int
    else if 'a' <= c <= 'f' then c as int - 'a' as int + 10
    else c as int - 'A' as int + 10
  }

  /** The UTF-16 code units of one character of the text. */
  function Units(c: char): seq<int> {
    var n := c as int;
    if n < 0x1_0000 then [n]
    else [0xd800 + (n - 0x1_0000) / 0x400, 0xdc00 + (n - 0x1_0000) % 0x400]
  }

  function UnitsOf(s: string): seq<int> {
    if s == "" then [] else Units(s[0]) + UnitsOf(s[1..])
  }

  predicate At(t: string, p: nat, c: char) {
    p < |t| && t[p] == c
  }

  predicate StartsAt(t: string, p: nat, word: string) {
    p + |word| <= |t| && forall i | 0 <= i < |word| :: t[p + i] == word[i]
  }

  // ----- tokens

  function SkipJsonSpace(t: string, p: nat): (q: nat)
    requires p <= |t|
    ensures p <= q <= |t|
    ensures q < |t| ==> !IsJsonSpace(t[q])
    ensures forall i | p <= i < q :: IsJsonSpace(t[i])
    decreases |t| - p
  {
    if p < |t| && IsJsonSpace(t[p]) then SkipJsonSpace(t, p + 1) else p
  }

  function SkipSpace(t: string, p: nat): (q: nat)
    requires p <= |t|
    ensures p <= q <= |t|
    ensures q < |t| ==> !IsSpace(t[q])
    ensures forall i | p <= i < q :: IsSpace(t[i])
    decreases |t| - p
  {
    if p < |t| && IsSpace(t[p]) then SkipSpace(t, p + 1) else p
  }

  function SkipDigits(t: string, p: nat): (q: nat)
    requires p <= |t|
    ensures p <= q <= |t|
    ensures q < |t| ==> !IsDigit(t[q])
    ensures forall i | p <= i < q :: IsDigit(t[i])
    decreases |t| - p
  {
    if p < |t| && IsDigit(t[p]) then SkipDigits(t, p + 1) else p
  }

  /** The end of the integer part of a number that starts at `p`; `p` when there is none. */
  function IntegerEnd(t: string, p: nat): (q: nat)
    requires p <= |t|
    ensures p <= q <= |t|
  {
    var d := if At(t, p, '-') then p + 1 else p;
    if At(t, d, '0') then d + 1
    else if d < |t| && IsDigit(t[d]) then SkipDigits(t, d)
    else p
  }

  function FractionEnd(t: string, p: nat): (q: nat)
    requires p <= |t|
    ensures p <= q <= |t|
  {
    if At(t, p, '.') && p + 1 < |t| && IsDigit(t[p + 1]) then SkipDigits(t, p + 1) else p
  }

  function ExponentEnd(t: string, p: nat): (q: nat)
    requires p <= |t|
    ensures p <= q <= |t|
  {
    if At(t, p, 'e') || At(t, p, 'E') then
      var d := if At(t, p + 1, '+') || At(t, p + 1, '-') then p + 2 else p + 1;
      if d < |t| && IsDigit(t[d]) then SkipDigits(t, d) else p
    else p
  }

  function ScanNumber(t: string, p: nat, rule: NumberRule): (r: Scan<Value>)
    requires p <= |t|
    ensures r.Found? ==> p < r.end <= |t|
  {
    var i := IntegerEnd(t, p);
    if i == p then Refused(DocumentJson)
    else
      var end := ExponentEnd(t, FractionEnd(t, i));
      if rule(t[p..end]) then Found(Number(t[p..end]), end) else Refused(UnsafeNumber)
  }

  /** The unit a two-character escape stands for. */
  function SimpleEscape(c: char): int {
    match c
    case '"' => 0x22
    case '\\' => 0x5c
    case '/' => 0x2f
    case 'b' => 0x08
    case 'f' => 0x0c
    case 'n' => 0x0a
    case 'r' => 0x0d
    case 't' => 0x09
    case _ => -1
  }

  predicate HexAt(t: string, p: nat) {
    p + 4 <= |t| && forall i | p <= i < p + 4 :: IsHex(t[i])
  }

  function HexUnit(t: string, p: nat): int
    requires HexAt(t, p)
  {
    ((HexValue(t[p]) * 16 + HexValue(t[p + 1])) * 16 + HexValue(t[p + 2])) * 16 + HexValue(t[p + 3])
  }

  /** The rest of a string literal from `p`, up to and including its closing quote. */
  function ScanText(t: string, p: nat): (r: Scan<seq<int>>)
    requires p <= |t|
    ensures r.Found? ==> p < r.end <= |t|
    decreases |t| - p
  {
    if p == |t| || t[p] < ' ' then Refused(DocumentJson)
    else if t[p] == '"' then Found([], p + 1)
    else if t[p] != '\\' then
      var (rest, end) :- ScanText(t, p + 1);
      Found(Units(t[p]) + rest, end)
    else if At(t, p + 1, 'u') && HexAt(t, p + 2) then
      var (rest, end) :- ScanText(t, p + 6);
      Found([HexUnit(t, p + 2)] + rest, end)
    else if p + 1 < |t| && SimpleEscape(t[p + 1]) >= 0 then
      var (rest, end) :- ScanText(t, p + 2);
      Found([SimpleEscape(t[p + 1])] + rest, end)
    else Refused(DocumentJson)
  }

  // ----- values

  predicate Distinct(members: seq<Pair>) {
    forall i, j | 0 <= i < j < |members| :: members[i].name != members[j].name
  }

  /** A literal name or a number that starts exactly at `p`. */
  function ScanWord(t: string, p: nat, rule: NumberRule): (r: Scan<Value>)
    requires p <= |t|
    ensures r.Found? ==> p < r.end <= |t| && !r.value.Array? && !r.value.Object?
  {
    if StartsAt(t, p, "null") then Found(Null, p + 4)
    else if StartsAt(t, p, "true") then Found(Bool(true), p + 4)
    else if StartsAt(t, p, "false") then Found(Bool(false), p + 5)
    else if StartsAt(t, p, "NaN") || StartsAt(t, p, "Infinity") || StartsAt(t, p, "-Infinity") then
      Refused(NonfiniteNumber)
    else ScanNumber(t, p, rule)
  }

  /** One value that starts exactly at `p`; it never skips leading space. */
  function ScanValue(t: string, p: nat, rule: NumberRule): (r: Scan<Value>)
    requires p <= |t|
    ensures r.Found? ==> p < r.end <= |t|
    decreases |t| - p, 0
  {
    if p == |t| then Refused(DocumentJson)
    else if t[p] == '"' then
      var (units, end) :- ScanText(t, p + 1);
      Found(Text(units), end)
    else if t[p] == '{' then
      var q := SkipJsonSpace(t, p + 1);
      if At(t, q, '}') then Found(Object([]), q + 1)
      else
        var (members, end) :- ScanMembers(t, q, rule);
        if Distinct(members) then Found(Object(members), end) else Refused(DuplicateKey)
    else if t[p] == '[' then
      var q := SkipJsonSpace(t, p + 1);
      if At(t, q, ']') then Found(Array([]), q + 1)
      else
        var (items, end) :- ScanItems(t, q, rule);
        Found(Array(items), end)
    else ScanWord(t, p, rule)
  }

  /** A nonempty list of array items from `p`, up to and including the closing bracket. */
  function ScanItems(t: string, p: nat, rule: NumberRule): (r: Scan<seq<Value>>)
    requires p <= |t|
    ensures r.Found? ==> p < r.end <= |t|
    decreases |t| - p, 1
  {
    var (item, after) :- ScanValue(t, p, rule);
    var q := SkipJsonSpace(t, after);
    if At(t, q, ']') then Found([item], q + 1)
    else if At(t, q, ',') then
      var (rest, end) :- ScanItems(t, SkipJsonSpace(t, q + 1), rule);
      Found([item] + rest, end)
    else Refused(DocumentJson)
  }

  /** The name that starts at `p`, and the position of its value. */
  function ScanName(t: string, p: nat): (r: Scan<seq<int>>)
    requires p <= |t|
    ensures r.Found? ==> p < r.end <= |t|
  {
    if !At(t, p, '"') then Refused(DocumentJson)
    else
      var (name, after) :- ScanText(t, p + 1);
      var colon := SkipJsonSpace(t, after);
      if At(t, colon, ':') then Found(name, SkipJsonSpace(t, colon + 1)) else Refused(DocumentJson)
  }

  /** A nonempty list of object members from `p`, up to and including the closing brace. */
  function ScanMembers(t: string, p: nat, rule: NumberRule): (r: Scan<seq<Pair>>)
    requires p <= |t|
    ensures r.Found? ==> p < r.end <= |t|
    decreases |t| - p, 1
  {
    var (name, begin) :- ScanName(t, p);
    var (value, after) :- ScanValue(t, begin, rule);
    var q := SkipJsonSpace(t, after);
    if At(t, q, '}') then Found([Pair(name, value)], q + 1)
    else if At(t, q, ',') then
      var (rest, end) :- ScanMembers(t, SkipJsonSpace(t, q + 1), rule);
      Found([Pair(name, value)] + rest, end)
    else Refused(DocumentJson)
  }

  // ----- limits

  function Max(a: nat, b: nat): nat { if a < b then b else a }

  /** How many levels of containers stand above the deepest node of a value. */
  function Height(v: Value): nat
    decreases v, 1
  {
    match v
    case Array(items) => ItemHeight(items)
    case Object(members) => MemberHeight(members)
    case _ => 0
  }

  function ItemHeight(items: seq<Value>): nat
    decreases items, 0
  {
    if items == [] then 0 else Max(1 + Height(items[0]), ItemHeight(items[1..]))
  }

  function MemberHeight(members: seq<Pair>): nat
    decreases members, 0
  {
    if members == [] then 0 else Max(1 + Height(members[0].value), MemberHeight(members[1..]))
  }

  function Nodes(v: Value): nat
    decreases v, 1
  {
    match v
    case Array(items) => 1 + ItemNodes(items)
    case Object(members) => 1 + MemberNodes(members)
    case _ => 1
  }

  function ItemNodes(items: seq<Value>): nat
    decreases items, 0
  {
    if items == [] then 0 else Nodes(items[0]) + ItemNodes(items[1..])
  }

  function MemberNodes(members: seq<Pair>): nat
    decreases members, 0
  {
    if members == [] then 0 else Nodes(members[0].value) + MemberNodes(members[1..])
  }

  /** Bytes of the UTF-8 form of a text. */
  function Bytes(t: string): nat {
    if t == "" then 0 else ByteWidth(t[0]) + Bytes(t[1..])
  }

  function ByteWidth(c: char): nat {
    if (c as int) < 0x80 then 1 else if (c as int) < 0x800 then 2 else if (c as int) < 0x1_0000 then 3 else 4
  }

  /** The one value of a document: an object, surrounded by nothing but white space, within
      the size, depth and node limits. The end is the position behind the object. */
  function Document(t: string, rule: NumberRule): (r: Scan<Value>)
    ensures r.Found? ==> r.value.Object? && SkipSpace(t, 0) < r.end <= |t|
  {
    if Bytes(t) > MAX_BYTES then Refused(DocumentSize)
    else
      var (value, end) :- ScanValue(t, SkipSpace(t, 0), rule);
      if !value.Object? || SkipSpace(t, end) != |t| then Refused(DocumentShape)
      else if Height(value) > MAX_DEPTH then Refused(DocumentDepth)
      else if Nodes(value) > MAX_NODES then Refused(DocumentNodes)
      else Found(value, end)
  }
}
