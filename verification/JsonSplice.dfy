/** The lossless insertion: where the value of a top-level member stands in the original text,
    and what inserting one more array item before its closing bracket does to the document. */
module JsonSplice {
  import opened Common
  import opened JsonText
  import opened JsonLocality

  // ----- the span of a top-level member

  /** The value of the first member with this name. */
  function Lookup(members: seq<Pair>, name: seq<int>): Option<Value> {
    if members == [] then None
    else if members[0].name == name then Some(members[0].value)
    else Lookup(members[1..], name)
  }

  /** Where the value of the first member named `name` begins and ends, in a member list that starts at `p`. */
  function MemberSpan(t: string, p: nat, name: seq<int>, rule: NumberRule): (r: Scan<nat>)
    requires p <= |t|
    ensures r.Found? ==> p < r.value < r.end <= |t|
    decreases |t| - p
  {
    var (key, begin) :- ScanName(t, p);
    var (_, after) :- ScanValue(t, begin, rule);
    var q := SkipJsonSpace(t, after);
    if key == name then Found(begin, after)
    else if At(t, q, ',') then MemberSpan(t, SkipJsonSpace(t, q + 1), name, rule)
    else Refused(MissingMember)
  }

  /** The span of a top-level member of a document. */
  function TopSpan(t: string, name: seq<int>, rule: NumberRule): (r: Scan<nat>)
    ensures r.Found? ==> r.value < r.end <= |t|
  {
    var s := SkipSpace(t, 0);
    if !At(t, s, '{') then Refused(DocumentShape)
    else
      var q := SkipJsonSpace(t, s + 1);
      if At(t, q, '}') then Refused(MissingMember) else MemberSpan(t, q, name, rule)
  }

  lemma {:induction false} MemberSpanMeaning(t: string, p: nat, name: seq<int>, rule: NumberRule)
    requires p <= |t| && ScanMembers(t, p, rule).Found?
    ensures var span := MemberSpan(t, p, name, rule);
      match Lookup(ScanMembers(t, p, rule).value, name)
      case Some(v) => span.Found? && ScanValue(t, span.value, rule) == Found(v, span.end)
      case None => span == Refused(MissingMember)
    decreases |t| - p
  {
    hide ScanValue, ScanMembers, ScanName, SkipJsonSpace;
    var key, begin, value, after, q, rest := MembersParts(t, p, rule);
    var members := ScanMembers(t, p, rule).value;
    assert members == [Pair(key, value)] + rest;
    if key != name {
      assert members[1..] == rest;
      if t[q] == ',' {
        var next := SkipJsonSpace(t, q + 1);
        MemberSpanMeaning(t, next, name, rule);
        assert MemberSpan(t, p, name, rule) == MemberSpan(t, next, name, rule);
        assert Lookup(members, name) == Lookup(rest, name);
      } else {
        assert MemberSpan(t, p, name, rule) == Refused(MissingMember);
        assert Lookup(members, name) == Lookup(rest, name) == None;
      }
    }
  }

  /** The parts of a document. */
  lemma DocumentParts(t: string, rule: NumberRule) returns (s: nat, q: nat, members: seq<Pair>, end: nat)
    requires Document(t, rule).Found?
    ensures Document(t, rule) == Found(Object(members), end)
    ensures s == SkipSpace(t, 0) && At(t, s, '{') && q == SkipJsonSpace(t, s + 1) && q < |t|
    ensures ScanValue(t, s, rule) == Found(Object(members), end) && end <= |t| && SkipSpace(t, end) == |t|
    ensures t[q] == '}' ==> members == [] && end == q + 1
    ensures t[q] != '}' ==> ScanMembers(t, q, rule) == Found(members, end) && Distinct(members)
  {
    hide ScanMembers, SkipJsonSpace, SkipSpace, Distinct, Height, Nodes, Bytes, ScanWord, ScanText, ScanItems;
    s := SkipSpace(t, 0);
    q := SkipJsonSpace(t, s + 1);
    members, end := Document(t, rule).value.members, Document(t, rule).end;
  }

  /** The span found for a name holds exactly that member's value, and there is one exactly when
      the document has the member. */
  lemma TopSpanMeaning(t: string, name: seq<int>, rule: NumberRule)
    requires Document(t, rule).Found?
    ensures match Lookup(Document(t, rule).value.members, name)
      case Some(v) =>
        var span := TopSpan(t, name, rule);
        span.Found? && ScanValue(t, span.value, rule) == Found(v, span.end)
      case None => TopSpan(t, name, rule) == Refused(MissingMember)
  {
    hide Document, ScanValue, ScanMembers, SkipJsonSpace, SkipSpace, MemberSpan;
    var s, q, members, end := DocumentParts(t, rule);
    if t[q] != '}' {
      MemberSpanMeaning(t, q, name, rule);
    }
  }

  /** Nothing that starts a value, a name or a separator is white space of either kind. */
  lemma ValueStart(t: string, p: nat, rule: NumberRule)
    requires p <= |t| && ScanValue(t, p, rule).Found?
    ensures p < |t| && !IsSpace(t[p]) && !IsJsonSpace(t[p])
    ensures t[p] != ']' && t[p] != '}' && t[p] != ',' && t[p] != ':'
  {
    hide ScanText, ScanItems, ScanMembers, SkipJsonSpace, Distinct;
    if StartsAt(t, p, "null") {
      assert t[p + 0] == "null"[0];
    } else if StartsAt(t, p, "true") {
      assert t[p + 0] == "true"[0];
    } else if StartsAt(t, p, "false") {
      assert t[p + 0] == "false"[0];
    }
  }

  /** Wherever the scanner's own white space ends, `isspace` ends as well. */
  lemma {:induction false} SameSkip(t: string, p: nat)
    requires p <= |t|
    requires var q := SkipJsonSpace(t, p); q < |t| ==> !IsSpace(t[q])
    ensures SkipSpace(t, p) == SkipJsonSpace(t, p)
    decreases |t| - p
  {
    if p < SkipJsonSpace(t, p) {
      SameSkip(t, p + 1);
    }
  }

  /** A member name read as a value, and the colon behind it. */
  lemma NameAsValue(t: string, p: nat, rule: NumberRule) returns (after: nat, colon: nat)
    requires p <= |t| && ScanName(t, p).Found?
    ensures p < |t| && t[p] == '"' && ScanValue(t, p, rule) == Found(Text(ScanName(t, p).value), after)
    ensures p < after <= |t| && colon == SkipJsonSpace(t, after) && At(t, colon, ':')
    ensures ScanName(t, p).end == SkipJsonSpace(t, colon + 1)
  {
    hide ScanText, ScanItems, ScanMembers, SkipJsonSpace, ScanWord;
    after := ScanText(t, p + 1).end;
    colon := SkipJsonSpace(t, after);
  }

  /** `while text[pos].isspace(): pos += 1`, which never runs off the text it is given. */
  method PassSpace(t: string, start: nat) returns (pos: nat)
    requires start <= |t| && SkipSpace(t, start) < |t|
    ensures pos == SkipSpace(t, start)
  {
    pos := start;
    while IsSpace(t[pos])
      invariant pos <= SkipSpace(t, start) == SkipSpace(t, pos)
      decreases |t| - pos
    {
      pos := pos + 1;
    }
  }

  /** The original value span of a top-level member. The scan below indexes the text without
      bounds checks and refuses a missing colon or separator; on a document neither happens. */
  method Member(t: string, key: string, rule: NumberRule) returns (r: Scan<nat>)
    requires Document(t, rule).Found?
    ensures r == TopSpan(t, UnitsOf(key), rule)
    ensures match Lookup(Document(t, rule).value.members, UnitsOf(key))
      case Some(v) => r.Found? && ScanValue(t, r.value, rule) == Found(v, r.end)
      case None => r == Refused(MissingMember)
  {
    hide *;
    ghost var name := UnitsOf(key);
    ghost var want := TopSpan(t, name, rule);
    TopSpanMeaning(t, name, rule);
    FirstMember(t, name, rule);
    var pos := SkipSpace(t, 0) + 1;
    while true
      invariant pos <= |t| && AtMember(t, pos, name, rule, want)
      decreases |t| - pos
    {
      MemberStart(t, pos, name, rule, want);
      pos := PassSpace(t, pos);
      if t[pos] == '}' {
        break;
      }
      ghost var units, nameEnd, colon, start, item, after, q := MemberStep(t, pos, name, rule);
      var read := ScanValue(t, pos, rule);
      pos := read.end;
      pos := PassSpace(t, pos);
      if t[pos] != ':' {
        return Refused(MemberColon);
      }
      pos := PassSpace(t, pos + 1);
      var begin := pos;
      var value := ScanValue(t, pos, rule);
      pos := value.end;
      if read.value == Text(UnitsOf(key)) {
        return Found(begin, pos);
      }
      pos := PassSpace(t, pos);
      if t[pos] == '}' {
        break;
      }
      if t[pos] != ',' {
        return Refused(MemberSeparator);
      }
      pos := pos + 1;
      NextMember(t, pos, name, rule);
    }
    return Refused(MissingMember);
  }

  /** What is left of the member list at `pos` decides the span: nothing, or the members from there. */
  ghost predicate AtMember(t: string, pos: nat, name: seq<int>, rule: NumberRule, want: Scan<nat>)
    requires pos <= |t|
  {
    var m := SkipJsonSpace(t, pos);
    || (At(t, m, '}') && want == Refused(MissingMember))
    || (ScanMembers(t, m, rule).Found? && want == MemberSpan(t, m, name, rule))
  }

  lemma FirstMember(t: string, name: seq<int>, rule: NumberRule)
    requires Document(t, rule).Found?
    ensures var s := SkipSpace(t, 0);
      s < |t| && t[s] == '{' && AtMember(t, s + 1, name, rule, TopSpan(t, name, rule))
  {
    hide Document, ScanValue, ScanMembers, SkipJsonSpace, SkipSpace, MemberSpan;
    var s, q, members, end := DocumentParts(t, rule);
  }

  lemma MemberStart(t: string, p: nat, name: seq<int>, rule: NumberRule, want: Scan<nat>)
    requires p <= |t| && AtMember(t, p, name, rule, want)
    ensures SkipSpace(t, p) == SkipJsonSpace(t, p) < |t|
    ensures var m := SkipJsonSpace(t, p);
      if t[m] == '}' then want == Refused(MissingMember)
      else ScanMembers(t, m, rule).Found? && want == MemberSpan(t, m, name, rule)
  {
    hide SkipSpace, SkipJsonSpace, ScanValue, ScanText;
    SameSkip(t, p);
  }

  lemma NextMember(t: string, p: nat, name: seq<int>, rule: NumberRule)
    requires p <= |t| && ScanMembers(t, SkipJsonSpace(t, p), rule).Found?
    ensures AtMember(t, p, name, rule, MemberSpan(t, SkipJsonSpace(t, p), name, rule))
  {
  }

  /** One turn of the member loop, in the scanner's terms. */
  lemma MemberStep(t: string, p: nat, name: seq<int>, rule: NumberRule)
    returns (key: seq<int>, nameEnd: nat, colon: nat, begin: nat, value: Value, after: nat, q: nat)
    requires p <= |t| && ScanMembers(t, p, rule).Found?
    ensures p < |t| && t[p] == '"' && p < nameEnd <= colon < begin < after <= q < |t|
    ensures ScanValue(t, p, rule) == Found(Text(key), nameEnd)
    ensures SkipSpace(t, nameEnd) == colon && t[colon] == ':' && SkipSpace(t, colon + 1) == begin
    ensures ScanValue(t, begin, rule) == Found(value, after) && SkipSpace(t, after) == q
    ensures t[q] == '}' || t[q] == ','
    ensures key == name ==> MemberSpan(t, p, name, rule) == Found(begin, after)
    ensures key != name && t[q] == '}' ==> MemberSpan(t, p, name, rule) == Refused(MissingMember)
    ensures key != name && t[q] == ',' ==> ScanMembers(t, SkipJsonSpace(t, q + 1), rule).Found?
    ensures key != name && t[q] == ',' ==>
      MemberSpan(t, p, name, rule) == MemberSpan(t, SkipJsonSpace(t, q + 1), name, rule)
  {
    hide SkipSpace, SkipJsonSpace, ScanValue, ScanMembers, ScanName;
    ghost var rest: seq<Pair>;
    key, begin, value, after, q, rest := MembersParts(t, p, rule);
    nameEnd, colon := NameAsValue(t, p, rule);
    ValueStart(t, begin, rule);
    SameSkip(t, nameEnd);
    SameSkip(t, colon + 1);
    SameSkip(t, after);
  }
}
