/** The splice itself: one raw draft inserted before the closing bracket of the drafts array. The
    new text reads as the same document with exactly that draft appended, unless it outgrows
    the size, depth or node limit; no other refusal of the plan can occur. */
module LosslessImport {
  import opened Common
  import opened JsonText
  import opened JsonLocality
  import opened JsonSplice

  /** `members` with the value of the first member named `name` exchanged. */
  function Replace(members: seq<Pair>, name: seq<int>, value: Value): (r: seq<Pair>)
    ensures |r| == |members|
    ensures forall i | 0 <= i < |members| :: r[i].name == members[i].name
  {
    if members == [] then []
    else if members[0].name == name then [Pair(name, value)] + members[1..]
    else [members[0]] + Replace(members[1..], name, value)
  }

  /** The situation of a splice: `u` is `t` with `n` characters put in at `c`, where `t` has the
      bracket that closes an array; what is put in is a comma, unless the array is empty, and
      the raw text of the value `d`. */
  ghost predicate Spliced(t: string, u: string, c: nat, n: nat, comma: bool, d: Value, rule: NumberRule) {
    && At(t, c, ']')
    && Shared(t, u, 0, c, 0) && Shared(t, u, c, |t|, n) && |u| == |t| + n
    && var v := if comma then c + 1 else c;
    && v <= c + n && (comma ==> At(u, c, ','))
    && ScanValue(u, v, rule) == Found(d, c + n)
  }

  /** The value put in, read as the last item of an array. */
  lemma NewItem(u: string, v: nat, e: nat, d: Value, rule: NumberRule)
    requires v <= |u| && ScanValue(u, v, rule) == Found(d, e) && At(u, e, ']')
    ensures v < |u| && u[v] != ']' && SkipJsonSpace(u, v) == v
    ensures ScanItems(u, v, rule) == Found([d], e + 1)
  {
    hide ScanValue, ScanItems, SkipJsonSpace;
    ValueStart(u, v, rule);
    NoSpace(u, v);
    NoSpace(u, e);
    LastItem(u, v, rule, d, e);
  }

  /** A value in front of the splice point, together with the space behind it, reads as before. */
  lemma ValueBefore(t: string, u: string, p: nat, c: nat, rule: NumberRule)
    requires p <= |t| && ScanValue(t, p, rule).Found?
    requires var q := SkipJsonSpace(t, ScanValue(t, p, rule).end);
      q <= c <= |t| && Shared(t, u, p, c, 0) && c < |u| && !IsJsonSpace(u[q]) && Stops(u, q)
    ensures ScanValue(u, p, rule) == ScanValue(t, p, rule)
    ensures SkipJsonSpace(u, ScanValue(t, p, rule).end) == SkipJsonSpace(t, ScanValue(t, p, rule).end)
  {
    hide ScanValue;
    var after := ScanValue(t, p, rule).end;
    var q := SkipJsonSpace(t, after);
    hide SkipJsonSpace;
    if after < q {
      assert t[after] == u[after];
    }
    ValueLocal(t, u, p, 0, rule);
    JsonSpaceLocal(t, u, after, 0);
  }

  lemma {:induction false} ItemsSplice(t: string, u: string, p: nat, c: nat, n: nat, d: Value, rule: NumberRule)
    requires Spliced(t, u, c, n, true, d, rule)
    requires p <= |t| && ScanItems(t, p, rule).Found? && ScanItems(t, p, rule).end == c + 1
    ensures ScanItems(u, p, rule) == Found(ScanItems(t, p, rule).value + [d], c + n + 1)
    decreases |t| - p
  {
    hide ScanValue, ScanItems, SkipJsonSpace;
    var item, after, q, rest := ItemsParts(t, p, rule);
    if t[q] == ',' {
      var next := SkipJsonSpace(t, q + 1);
      NextItem(t, q + 1, rule);
      assert t[q] == u[q + 0] && t[next] == u[next + 0];
      ValueBefore(t, u, p, c, rule);
      JsonSpaceLocal(t, u, q + 1, 0);
      ItemsSplice(t, u, next, c, n, d, rule);
      MoreItems(u, p, rule, item, after, rest + [d], c + n + 1);
      assert [item] + (rest + [d]) == [item] + rest + [d];
    } else {
      assert t[c] == u[c + n];
      ValueBefore(t, u, p, c, rule);
      NewItem(u, c + 1, c + n, d, rule);
      MoreItems(u, p, rule, item, after, [d], c + n + 1);
    }
  }

  lemma NoSpace(t: string, p: nat)
    requires p < |t| && !IsJsonSpace(t[p])
    ensures SkipJsonSpace(t, p) == p
  {
  }

  lemma NextItem(t: string, p: nat, rule: NumberRule)
    requires p <= |t| && ScanItems(t, SkipJsonSpace(t, p), rule).Found?
    ensures SkipJsonSpace(t, p) + 1 < ScanItems(t, SkipJsonSpace(t, p), rule).end
    ensures SkipJsonSpace(t, p) < |t| && !IsJsonSpace(t[SkipJsonSpace(t, p)])
  {
    hide ScanValue, ScanItems, SkipJsonSpace;
    var item, after, q, rest := ItemsParts(t, SkipJsonSpace(t, p), rule);
  }

  lemma ArraySplice(t: string, u: string, b: nat, c: nat, n: nat, items: seq<Value>, d: Value, rule: NumberRule)
    requires Spliced(t, u, c, n, items != [], d, rule)
    requires b <= |t| && ScanValue(t, b, rule) == Found(Array(items), c + 1)
    ensures ScanValue(u, b, rule) == Found(Array(items + [d]), c + n + 1)
    ensures b < c && t[b] == u[b] == '['
  {
    hide ScanValue, ScanItems, SkipJsonSpace;
    var q := ArrayParts(t, b, rule);
    assert t[c] == u[c + n] && t[b] == u[b];
    if items == [] {
      NewItem(u, c, c + n, d, rule);
      ValueStart(u, c, rule);
      JsonSpaceLocal(t, u, b + 1, 0);
      ArrayIs(u, b, c, rule);
      assert items + [d] == [d];
    } else {
      assert t[q] == u[q];
      JsonSpaceLocal(t, u, b + 1, 0);
      ItemsSplice(t, u, q, c, n, d, rule);
      ArrayIs(u, b, q, rule);
    }
  }

  lemma ArrayParts(t: string, b: nat, rule: NumberRule) returns (q: nat)
    requires b <= |t| && ScanValue(t, b, rule).Found? && ScanValue(t, b, rule).value.Array?
    ensures At(t, b, '[') && q == SkipJsonSpace(t, b + 1) && q < |t| && !IsJsonSpace(t[q])
    ensures var v := ScanValue(t, b, rule);
      if v.value.items == [] then t[q] == ']' && v.end == q + 1
      else t[q] != ']' && ScanItems(t, q, rule) == Found(v.value.items, v.end) && q + 1 < v.end
  {
    hide ScanWord, ScanText, ScanItems, ScanMembers, SkipJsonSpace, Distinct;
    q := SkipJsonSpace(t, b + 1);
    if t[q] != ']' {
      var item, after, r, rest := ItemsParts(t, q, rule);
    }
  }

  lemma ArrayIs(t: string, b: nat, q: nat, rule: NumberRule)
    requires At(t, b, '[') && q == SkipJsonSpace(t, b + 1) && q <= |t| && ScanItems(t, q, rule).Found?
    ensures ScanValue(t, b, rule) == Found(Array(ScanItems(t, q, rule).value), ScanItems(t, q, rule).end)
  {
    hide ScanWord, ScanText, ScanItems, ScanMembers, SkipJsonSpace, Distinct;
    var item, after, r, rest := ItemsParts(t, q, rule);
    ValueStart(t, q, rule);
  }

  /** The member whose array grows, and the members behind it. */
  lemma GrownMember(t: string, u: string, p: nat, c: nat, n: nat, items: seq<Value>, d: Value, rule: NumberRule,
                    key: seq<int>, begin: nat, q: nat, rest: seq<Pair>, end: nat)
    requires Spliced(t, u, c, n, items != [], d, rule)
    requires p <= |t| && ScanName(t, p) == Found(key, begin)
    requires ScanValue(t, begin, rule) == Found(Array(items), c + 1)
    requires q == SkipJsonSpace(t, c + 1) && q < |t|
    requires if t[q] == '}' then rest == [] && end == q + 1
             else t[q] == ',' && ScanMembers(t, SkipJsonSpace(t, q + 1), rule) == Found(rest, end)
    ensures ScanMembers(u, p, rule) == Found([Pair(key, Array(items + [d]))] + rest, end + n)
  {
    hide *;
    MemberGrows(t, u, p, c, n, items, d, rule, key, begin, q);
    var grown := Array(items + [d]);
    if t[q] == ',' {
      RestMoves(t, u, q, c, n, items != [], d, rule, rest, end);
      MoreMembers(u, p, rule, key, begin, grown, c + 1 + n, rest, end + n);
    } else {
      LastMember(u, p, rule, key, begin, grown, c + 1 + n);
      assert [Pair(key, grown)] + rest == [Pair(key, grown)];
    }
  }

  lemma MemberGrows(t: string, u: string, p: nat, c: nat, n: nat, items: seq<Value>, d: Value, rule: NumberRule,
                    key: seq<int>, begin: nat, q: nat)
    requires Spliced(t, u, c, n, items != [], d, rule)
    requires p <= |t| && ScanName(t, p) == Found(key, begin)
    requires ScanValue(t, begin, rule) == Found(Array(items), c + 1)
    requires q == SkipJsonSpace(t, c + 1) && q < |t|
    ensures ScanName(u, p) == Found(key, begin) && ScanValue(u, begin, rule) == Found(Array(items + [d]), c + 1 + n)
    ensures c + 1 + n <= |u| && SkipJsonSpace(u, c + 1 + n) == q + n && At(u, q + n, t[q])
  {
    hide ScanValue, ScanName, SkipJsonSpace;
    ArraySplice(t, u, begin, c, n, items, d, rule);
    NameLocal(t, u, p, 0);
    assert t[q] == u[q + n];
    JsonSpaceLocal(t, u, c + 1, n);
  }

  /** The members behind the splice point read as before, further on. */
  lemma RestMoves(t: string, u: string, q: nat, c: nat, n: nat, comma: bool, d: Value, rule: NumberRule,
                  rest: seq<Pair>, end: nat)
    requires Spliced(t, u, c, n, comma, d, rule) && c < q < |t|
    requires ScanMembers(t, SkipJsonSpace(t, q + 1), rule) == Found(rest, end)
    ensures q + n + 1 <= |u| && ScanMembers(u, SkipJsonSpace(u, q + n + 1), rule) == Found(rest, end + n)
  {
    hide ScanValue, ScanMembers, SkipJsonSpace;
    var next := SkipJsonSpace(t, q + 1);
    MembersStart(t, next, rule);
    assert t[next] == u[next + n];
    JsonSpaceLocal(t, u, q + 1, n);
    MembersLocal(t, u, next, n, rule);
  }

  lemma {:induction false} MembersSplice(t: string, u: string, p: nat, name: seq<int>, c: nat, n: nat, items: seq<Value>,
                                         d: Value, rule: NumberRule)
    requires Spliced(t, u, c, n, items != [], d, rule)
    requires p <= |t| && ScanMembers(t, p, rule).Found?
    requires var span := MemberSpan(t, p, name, rule);
      span.Found? && span.end == c + 1 && ScanValue(t, span.value, rule) == Found(Array(items), c + 1)
    ensures var r := ScanMembers(t, p, rule);
      ScanMembers(u, p, rule) == Found(Replace(r.value, name, Array(items + [d])), r.end + n)
    ensures p < c
    decreases |t| - p
  {
    hide ScanValue, ScanMembers, ScanName, SkipJsonSpace, Spliced;
    var key, begin, value, after, q, rest := MembersParts(t, p, rule);
    var end := ScanMembers(t, p, rule).end;
    var members := ScanMembers(t, p, rule).value;
    assert members == [Pair(key, value)] + rest && members[1..] == rest;
    if key == name {
      assert MemberSpan(t, p, name, rule) == Found(begin, after);
      GrownMember(t, u, p, c, n, items, d, rule, key, begin, q, rest, end);
    } else {
      assert t[q] == ',';
      var next := SkipJsonSpace(t, q + 1);
      assert MemberSpan(t, p, name, rule) == MemberSpan(t, next, name, rule);
      MembersSplice(t, u, next, name, c, n, items, d, rule);
      EarlierMember(t, u, p, c, n, items, d, rule, key, begin, value, after, q, Replace(rest, name, Array(items + [d])), end + n);
    }
  }

  /** A member in front of the splice point reads as before. */
  lemma EarlierMember(t: string, u: string, p: nat, c: nat, n: nat, items: seq<Value>, d: Value, rule: NumberRule,
                      key: seq<int>, begin: nat, value: Value, after: nat, q: nat, rest: seq<Pair>, end: nat)
    requires Spliced(t, u, c, n, items != [], d, rule)
    requires p <= |t| && ScanName(t, p) == Found(key, begin)
    requires ScanValue(t, begin, rule) == Found(value, after)
    requires q == SkipJsonSpace(t, after) && At(t, q, ',')
    requires var next := SkipJsonSpace(t, q + 1);
      next < c && ScanMembers(t, next, rule).Found? && ScanMembers(u, next, rule) == Found(rest, end)
    ensures ScanMembers(u, p, rule) == Found([Pair(key, value)] + rest, end)
  {
    hide ScanValue, ScanMembers, ScanName, SkipJsonSpace;
    var next := SkipJsonSpace(t, q + 1);
    MembersStart(t, next, rule);
    assert t[q] == u[q + 0] && t[next] == u[next + 0];
    NameLocal(t, u, p, 0);
    ValueBefore(t, u, begin, c, rule);
    JsonSpaceLocal(t, u, q + 1, 0);
    MoreMembers(u, p, rule, key, begin, value, after, rest, end);
  }

  lemma MembersStart(t: string, p: nat, rule: NumberRule)
    requires p <= |t| && ScanMembers(t, p, rule).Found?
    ensures p + 1 < ScanMembers(t, p, rule).end && At(t, p, '"')
  {
    hide ScanValue, ScanMembers, SkipJsonSpace, ScanText;
    var key, begin, value, after, q, rest := MembersParts(t, p, rule);
  }

  // ----- the whole document

  lemma {:induction false} LookupReplace(members: seq<Pair>, name: seq<int>, value: Value, other: seq<int>)
    requires Lookup(members, name).Some?
    ensures Lookup(Replace(members, name, value), other) == if other == name then Some(value) else Lookup(members, other)
  {
    var r := Replace(members, name, value);
    if members[0].name != name {
      LookupReplace(members[1..], name, value, other);
      assert r[1..] == Replace(members[1..], name, value);
    } else {
      assert r[1..] == members[1..];
    }
  }

  lemma {:induction false} ItemLimits(items: seq<Value>, d: Value)
    ensures ItemHeight(items + [d]) == Max(ItemHeight(items), 1 + Height(d))
    ensures ItemNodes(items + [d]) == ItemNodes(items) + Nodes(d)
  {
    if items != [] {
      ItemLimits(items[1..], d);
      assert (items + [d])[1..] == items[1..] + [d];
    } else {
      assert (items + [d])[1..] == [];
    }
  }

  /** Height and node count of the object whose member `name`, an array, takes one more item. */
  lemma {:induction false} ReplaceLimits(members: seq<Pair>, name: seq<int>, items: seq<Value>, d: Value)
    requires Lookup(members, name) == Some(Array(items))
    ensures var r := Replace(members, name, Array(items + [d]));
      && MemberHeight(r) == Max(MemberHeight(members), 2 + Height(d))
      && MemberNodes(r) == MemberNodes(members) + Nodes(d)
  {
    var r := Replace(members, name, Array(items + [d]));
    if members[0].name != name {
      ReplaceLimits(members[1..], name, items, d);
      assert r[1..] == Replace(members[1..], name, Array(items + [d]));
    } else {
      ItemLimits(items, d);
      assert r[1..] == members[1..];
    }
  }

  lemma {:induction false} BytesConcat(a: string, b: string)
    ensures Bytes(a + b) == Bytes(a) + Bytes(b)
  {
    if a == "" {
      assert a + b == b;
    } else {
      BytesConcat(a[1..], b);
      assert (a + b)[1..] == a[1..] + b;
    }
  }

  /** The text that `plan` builds: the draft's raw span in front of the closing bracket. */
  function Insert(t: string, closing: nat, comma: bool, raw: string): string
    requires closing <= |t|
  {
    t[..closing] + (if comma then "," else "") + raw + t[closing..]
  }

  const DRAFTS: seq<int> := UnitsOf("drafts")
  const DRAFT: seq<int> := UnitsOf("draft")

  /** What reading the enlarged text must give: the same members in the same order, the drafts array
      longer by exactly `d`; or the first limit that the addition breaks. */
  function Expected(t: string, members: seq<Pair>, items: seq<Value>, d: Value, end: nat, inserted: nat, bytes: nat): Scan<Value> {
    if Bytes(t) + bytes > MAX_BYTES then Refused(DocumentSize)
    else if 2 + Height(d) > MAX_DEPTH then Refused(DocumentDepth)
    else if Nodes(Object(members)) + Nodes(d) > MAX_NODES then Refused(DocumentNodes)
    else Found(Object(Replace(members, DRAFTS, Array(items + [d]))), end + inserted)
  }

  lemma InsertIsSplice(t: string, closing: nat, comma: bool, src: string, begin: nat, end: nat, d: Value, rule: NumberRule)
    requires At(t, closing, ']')
    requires begin <= |src| && ScanValue(src, begin, rule) == Found(d, end)
    ensures var u := Insert(t, closing, comma, src[begin..end]);
      Spliced(t, u, closing, (if comma then 1 else 0) + end - begin, comma, d, rule)
  {
    hide ScanValue;
    var raw := src[begin..end];
    var u := Insert(t, closing, comma, raw);
    var v := if comma then closing + 1 else closing;
    assert forall i | begin <= i < end :: src[i] == u[i + (v - begin)] by {
      forall i | begin <= i < end ensures src[i] == u[i + (v - begin)] {
        assert raw[i - begin] == src[i];
      }
    }
    assert u[v + |raw|] == ']';
    ValueLocal(src, u, begin, v - begin, rule);
  }

  lemma {:induction false} ItemsEnd(t: string, p: nat, rule: NumberRule)
    requires p <= |t| && ScanItems(t, p, rule).Found?
    ensures t[ScanItems(t, p, rule).end - 1] == ']'
    decreases |t| - p
  {
    hide ScanValue, ScanItems, SkipJsonSpace;
    var item, after, q, rest := ItemsParts(t, p, rule);
    if t[q] == ',' {
      ItemsEnd(t, SkipJsonSpace(t, q + 1), rule);
    }
  }

  lemma ObjectIs(t: string, s: nat, q: nat, members: seq<Pair>, end: nat, rule: NumberRule)
    requires At(t, s, '{') && q == SkipJsonSpace(t, s + 1) && q <= |t|
    requires ScanMembers(t, q, rule) == Found(members, end) && Distinct(members)
    ensures ScanValue(t, s, rule) == Found(Object(members), end)
  {
    MembersStart(t, q, rule);
    hide ScanWord, ScanText, ScanItems, ScanMembers, SkipJsonSpace, Distinct;
  }

  lemma DocumentIs(t: string, s: nat, members: seq<Pair>, end: nat, rule: NumberRule)
    requires s == SkipSpace(t, 0) && end <= |t| && SkipSpace(t, end) == |t|
    requires ScanValue(t, s, rule) == Found(Object(members), end)
    ensures Document(t, rule) ==
      if Bytes(t) > MAX_BYTES then Refused(DocumentSize)
      else if MemberHeight(members) > MAX_DEPTH then Refused(DocumentDepth)
      else if 1 + MemberNodes(members) > MAX_NODES then Refused(DocumentNodes)
      else Found(Object(members), end)
  {
    hide ScanValue, SkipSpace, MemberHeight, MemberNodes, Bytes;
  }

  /** The enlarged text up to its limits: the same object with the longer array, and only white
      space behind it. */
  lemma InsertionScans(t: string, u: string, n: nat, members: seq<Pair>, items: seq<Value>, docEnd: nat,
                       begin: nat, closing: nat, d: Value, rule: NumberRule)
    requires Document(t, rule) == Found(Object(members), docEnd)
    requires Lookup(members, DRAFTS) == Some(Array(items))
    requires TopSpan(t, DRAFTS, rule) == Found(begin, closing + 1)
    requires Spliced(t, u, closing, n, items != [], d, rule)
    ensures SkipSpace(u, 0) == SkipSpace(t, 0)
    ensures docEnd + n <= |u| && SkipSpace(u, docEnd + n) == |u|
    ensures ScanValue(u, SkipSpace(u, 0), rule)
         == Found(Object(Replace(members, DRAFTS, Array(items + [d]))), docEnd + n)
  {
    hide *;
    var s, q, ms, end := DocumentParts(t, rule);
    var longer := Replace(members, DRAFTS, Array(items + [d]));
    NoMember(DRAFTS);
    SpanIs(t, s, q, DRAFTS, rule);
    TopSpanMeaning(t, DRAFTS, rule);
    SpanInside(t, DRAFTS, rule);
    MembersSplice(t, u, q, DRAFTS, closing, n, items, d, rule);
    DocumentMoves(t, u, s, q, closing, docEnd, n, items != [], d, rule);
    ReplaceDistinct(members, DRAFTS, Array(items + [d]));
    ObjectIs(u, s, q, longer, docEnd + n, rule);
  }

  lemma SpanIs(t: string, s: nat, q: nat, name: seq<int>, rule: NumberRule)
    requires s == SkipSpace(t, 0) && At(t, s, '{') && q == SkipJsonSpace(t, s + 1) && q < |t| && t[q] != '}'
    ensures TopSpan(t, name, rule) == MemberSpan(t, q, name, rule)
  {
    hide MemberSpan, SkipSpace, SkipJsonSpace;
  }

  lemma ReplaceDistinct(members: seq<Pair>, name: seq<int>, value: Value)
    requires Distinct(members)
    ensures Distinct(Replace(members, name, value))
  {
    hide Replace;
  }

  /** In front of the members and behind the object the enlarged text is as before. */
  lemma DocumentMoves(t: string, u: string, s: nat, q: nat, c: nat, end: nat, n: nat, comma: bool, d: Value, rule: NumberRule)
    requires Spliced(t, u, c, n, comma, d, rule)
    requires s == SkipSpace(t, 0) && At(t, s, '{') && q == SkipJsonSpace(t, s + 1) && q < c < end <= |t|
    requires SkipSpace(t, end) == |t|
    ensures SkipSpace(u, 0) == s && At(u, s, '{') && SkipJsonSpace(u, s + 1) == q
    ensures end + n <= |u| && SkipSpace(u, end + n) == |u|
  {
    hide ScanValue, SkipSpace, SkipJsonSpace;
    assert t[s] == u[s + 0] && t[q] == u[q + 0];
    JsonSpaceLocal(t, u, s + 1, 0);
    SpaceLocal(t, u, 0, 0);
    SpaceLocal(t, u, end, n);
  }

  lemma NoMember(name: seq<int>)
    ensures Lookup([], name) == None
  {
  }

  /** A top-level value ends before the object does. */
  lemma SpanInside(t: string, name: seq<int>, rule: NumberRule)
    requires Document(t, rule).Found? && TopSpan(t, name, rule).Found?
    ensures TopSpan(t, name, rule).end < Document(t, rule).end
  {
    hide Document, ScanValue, ScanMembers, MemberSpan, SkipJsonSpace, SkipSpace;
    var s, q, ms, end := DocumentParts(t, rule);
    if t[q] != '}' {
      MemberInside(t, q, name, rule);
    }
  }

  lemma {:induction false} MemberInside(t: string, p: nat, name: seq<int>, rule: NumberRule)
    requires p <= |t| && ScanMembers(t, p, rule).Found? && MemberSpan(t, p, name, rule).Found?
    ensures MemberSpan(t, p, name, rule).end < ScanMembers(t, p, rule).end
    decreases |t| - p
  {
    hide ScanValue, ScanMembers, ScanName, SkipJsonSpace;
    var key, begin, value, after, q, rest := MembersParts(t, p, rule);
    if key != name && t[q] == ',' {
      MemberInside(t, SkipJsonSpace(t, q + 1), name, rule);
    }
  }

  /** MAIN RESULT. Inserting the raw text of any scanned value before the bracket that closes the
      drafts array of any document reads back as that document with exactly that value appended to
      its drafts, or meets one of the three limits; there is no other outcome. */
  lemma InsertionReads(t: string, members: seq<Pair>, items: seq<Value>, docEnd: nat, span: nat, closing: nat,
                       src: string, begin: nat, end: nat, d: Value, rule: NumberRule)
    requires Document(t, rule) == Found(Object(members), docEnd)
    requires Lookup(members, DRAFTS) == Some(Array(items))
    requires TopSpan(t, DRAFTS, rule) == Found(span, closing + 1)
    requires begin <= |src| && ScanValue(src, begin, rule) == Found(d, end)
    ensures At(t, closing, ']')
    ensures var comma := items != [];
      var added := (if comma then 1 else 0) + (end - begin);
      var bytes := (if comma then 1 else 0) + Bytes(src[begin..end]);
      Document(Insert(t, closing, comma, src[begin..end]), rule) == Expected(t, members, items, d, docEnd, added, bytes)
  {
    hide Document, ScanValue, ScanItems, MemberSpan, TopSpan, SkipJsonSpace, SkipSpace, MemberHeight, MemberNodes, Bytes;
    hide Lookup, Replace, Spliced;
    TopSpanMeaning(t, DRAFTS, rule);
    var inner := ArrayParts(t, span, rule);
    if items != [] {
      ItemsEnd(t, inner, rule);
    }
    var comma := items != [];
    var raw := src[begin..end];
    var u := Insert(t, closing, comma, raw);
    var n := (if comma then 1 else 0) + (end - begin);
    InsertIsSplice(t, closing, comma, src, begin, end, d, rule);
    InsertionScans(t, u, n, members, items, docEnd, span, closing, d, rule);
    DocumentIs(u, SkipSpace(u, 0), Replace(members, DRAFTS, Array(items + [d])), docEnd + n, rule);
    InsertionLimits(t, closing, comma, raw, members, items, d);
    DocumentFits(t, rule);
  }

  lemma InsertionLimits(t: string, closing: nat, comma: bool, raw: string, members: seq<Pair>, items: seq<Value>, d: Value)
    requires closing <= |t| && Lookup(members, DRAFTS) == Some(Array(items))
    ensures Bytes(Insert(t, closing, comma, raw)) == Bytes(t) + (if comma then 1 else 0) + Bytes(raw)
    ensures var r := Replace(members, DRAFTS, Array(items + [d]));
      && MemberHeight(r) == Max(MemberHeight(members), 2 + Height(d))
      && MemberNodes(r) == MemberNodes(members) + Nodes(d)
  {
    ReplaceLimits(members, DRAFTS, items, d);
    var sep := if comma then "," else "";
    assert Bytes(sep) == if comma then 1 else 0 by {
      assert ","[1..] == "";
    }
    hide Bytes;
    BytesConcat(t[..closing], sep);
    BytesConcat(t[..closing] + sep, raw);
    BytesConcat(t[..closing] + sep + raw, t[closing..]);
    BytesConcat(t[..closing], t[closing..]);
    assert t[..closing] + t[closing..] == t;
  }

  lemma DocumentFits(t: string, rule: NumberRule)
    requires Document(t, rule).Found?
    ensures Bytes(t) <= MAX_BYTES && MemberHeight(Document(t, rule).value.members) <= MAX_DEPTH
    ensures 1 + MemberNodes(Document(t, rule).value.members) <= MAX_NODES
  {
    hide ScanValue, SkipSpace, MemberHeight, MemberNodes, Bytes;
  }

  /** The drafts of a state document: an array of objects. */
  function Drafts(members: seq<Pair>): Option<seq<Value>> {
    match Lookup(members, DRAFTS)
    case Some(Array(items)) => if forall v | v in items :: v.Object? then Some(items) else None
    case _ => None
  }

  /** Which lists of drafts a document has: those under the name, if all of them are objects. */
  lemma DraftsExactly(members: seq<Pair>, items: seq<Value>)
    requires Distinct(members)
    ensures DRAFTS == ['d' as int, 'r' as int, 'a' as int, 'f' as int, 't' as int, 's' as int] && DRAFT == DRAFTS[..5]
    ensures Drafts(members) == Some(items) <==>
      Pair(DRAFTS, Array(items)) in members && forall i | 0 <= i < |items| :: items[i].Object?
  {
    hide Distinct;
    NamesSpelled();
    LookupExactly(members, DRAFTS, Array(items));
    hide Lookup;
    if Drafts(members) == Some(items) {
      assert forall i | 0 <= i < |items| :: items[i] in items;
    }
  }

  lemma NamesSpelled()
    ensures DRAFTS == ['d' as int, 'r' as int, 'a' as int, 'f' as int, 't' as int, 's' as int] && DRAFT == DRAFTS[..5]
  {
    UnitsSpelled("drafts");
    UnitsSpelled("draft");
  }

  lemma {:induction false} UnitsSpelled(s: string)
    requires forall c | c in s :: c as int < 0x80
    ensures |UnitsOf(s)| == |s| && forall i | 0 <= i < |s| :: UnitsOf(s)[i] == s[i] as int
  {
    if s != "" {
      assert s[0] in s && forall c | c in s[1..] :: c in s;
      UnitsSpelled(s[1..]);
    }
  }

  /** With distinct names a name finds exactly the member that has it. */
  lemma {:induction false} LookupExactly(members: seq<Pair>, name: seq<int>, value: Value)
    requires Distinct(members)
    ensures Lookup(members, name) == Some(value) <==> Pair(name, value) in members
  {
    if members != [] {
      var rest := members[1..];
      assert forall i | 0 <= i < |rest| :: rest[i] == members[i + 1];
      LookupExactly(rest, name, value);
      assert forall p | p in members :: p == members[0] || p in rest;
      assert forall p | p in rest :: p in members && p.name != members[0].name;
    }
  }

  /** The members other than one; the comparison below is on their order too, so it is the stricter one. */
  function Without(members: seq<Pair>, name: seq<int>): seq<Pair> {
    if members == [] then []
    else (if members[0].name == name then [] else [members[0]]) + Without(members[1..], name)
  }

  lemma {:induction false} WithoutReplaced(members: seq<Pair>, name: seq<int>, value: Value)
    ensures Without(Replace(members, name, value), name) == Without(members, name)
  {
    if members != [] {
      var r := Replace(members, name, value);
      if members[0].name == name {
        assert r[1..] == members[1..];
      } else {
        WithoutReplaced(members[1..], name, value);
        assert r[1..] == Replace(members[1..], name, value);
      }
    }
  }

  /** The text part of `plan`: the proposal's raw draft span spliced into the state text, with every
      check the original makes on the way. `proposal` has been validated: its draft is an object.
      The contract says which of those checks can fail at all: the span, the preservation of the
      drafts and the preservation of everything else never do. */
  method Plan(state: string, proposal: string, rule: NumberRule) returns (r: Result<string, Refusal>)
    requires Document(proposal, rule).Found?
    requires var d := Lookup(Document(proposal, rule).value.members, DRAFT); d.Some? && d.value.Object?
    ensures match Document(state, rule)
      case Refused(why) => r == Err(why)
      case Found(document, docEnd) =>
        match Drafts(document.members)
        case None => r == Err(StateDraftsShape)
        case Some(items) =>
          var raw := TopSpan(proposal, DRAFT, rule);
          var span := TopSpan(state, DRAFTS, rule);
          && raw.Found? && span.Found?
          && var d := Lookup(Document(proposal, rule).value.members, DRAFT).value;
          var sep := if items != [] then 1 else 0;
          match Expected(state, document.members, items, d, docEnd, sep + raw.end - raw.value,
                         sep + Bytes(proposal[raw.value..raw.end]))
          case Refused(why) => r == Err(why)
          case Found(grown, grownEnd) =>
            && r == Ok(Insert(state, span.end - 1, items != [], proposal[raw.value..raw.end]))
            && Document(r.value, rule) == Found(grown, grownEnd)
    ensures r.Err? ==> r.error !in {MissingMember, MemberColon, MemberSeparator, DraftsSpan, DraftPreservation, StatePreservation}
  {
    hide Document, ScanValue, TopSpan, Lookup, Bytes, Replace, Without, Height, Nodes, UnitsOf;
    var d := Lookup(Document(proposal, rule).value.members, DRAFT).value;
    var raw := Member(proposal, "draft", rule);
    var document := Document(state, rule);
    if document.Refused? {
      RefusedDocument(state, rule);
      return Err(document.why);
    }
    var members := document.value.members;
    var drafts := Drafts(members);
    if drafts.None? {
      return Err(StateDraftsShape);
    }
    var items := drafts.value;
    DraftsAre(members);
    var span := Member(state, "drafts", rule);
    var closing := span.end - 1;
    InsertionReads(state, members, items, document.end, span.value, closing, proposal, raw.value, raw.end, d, rule);
    if state[closing] != ']' {
      return Err(DraftsSpan);
    }
    var content := Insert(state, closing, items != [], proposal[raw.value..raw.end]);
    var result := Document(content, rule);
    if result.Refused? {
      return Err(result.why);
    }
    var after := result.value.members;
    LookupReplace(members, DRAFTS, Array(items + [d]), DRAFTS);
    WithoutReplaced(members, DRAFTS, Array(items + [d]));
    if Lookup(after, DRAFTS) != Some(Array(items + [d])) {
      return Err(DraftPreservation);
    }
    if Without(after, DRAFTS) != Without(members, DRAFTS) {
      return Err(StatePreservation);
    }
    return Ok(content);
  }

  lemma DraftsAre(members: seq<Pair>)
    requires Drafts(members).Some?
    ensures Lookup(members, DRAFTS) == Some(Array(Drafts(members).value))
  {
  }

  const SCANNER_REFUSALS: set<Refusal> :=
    {DocumentSize, DocumentJson, DocumentShape, DocumentDepth, DocumentNodes, DuplicateKey, UnsafeNumber, NonfiniteNumber}

  /** A text that is not a document is refused for its own sake. */
  lemma RefusedDocument(t: string, rule: NumberRule)
    ensures Document(t, rule).Refused? ==> Document(t, rule).why in SCANNER_REFUSALS
  {
    hide ScanValue, SkipSpace, Height, Nodes, Bytes;
    RefusedValue(t, SkipSpace(t, 0), rule);
  }

  lemma {:induction false} RefusedText(t: string, p: nat)
    requires p <= |t|
    ensures ScanText(t, p).Refused? ==> ScanText(t, p).why == DocumentJson
    decreases |t| - p
  {
    if p < |t| && t[p] >= ' ' && t[p] != '"' {
      if t[p] != '\\' {
        RefusedText(t, p + 1);
      } else if At(t, p + 1, 'u') && HexAt(t, p + 2) {
        RefusedText(t, p + 6);
      } else if p + 1 < |t| && SimpleEscape(t[p + 1]) >= 0 {
        RefusedText(t, p + 2);
      }
    }
  }

  lemma {:induction false} RefusedValue(t: string, p: nat, rule: NumberRule)
    requires p <= |t|
    ensures ScanValue(t, p, rule).Refused? ==> ScanValue(t, p, rule).why in SCANNER_REFUSALS
    decreases |t| - p, 0
  {
    hide ScanText, ScanItems, ScanMembers, SkipJsonSpace, Distinct;
    if p < |t| {
      RefusedText(t, p + 1);
      var q := SkipJsonSpace(t, p + 1);
      RefusedItems(t, q, rule);
      RefusedMembers(t, q, rule);
    }
  }

  lemma {:induction false} RefusedItems(t: string, p: nat, rule: NumberRule)
    requires p <= |t|
    ensures ScanItems(t, p, rule).Refused? ==> ScanItems(t, p, rule).why in SCANNER_REFUSALS
    decreases |t| - p, 1
  {
    hide ScanValue, SkipJsonSpace;
    RefusedValue(t, p, rule);
    var one := ScanValue(t, p, rule);
    if one.Found? {
      var q := SkipJsonSpace(t, one.end);
      if At(t, q, ',') {
        RefusedItems(t, SkipJsonSpace(t, q + 1), rule);
      }
    }
  }

  lemma {:induction false} RefusedMembers(t: string, p: nat, rule: NumberRule)
    requires p <= |t|
    ensures ScanMembers(t, p, rule).Refused? ==> ScanMembers(t, p, rule).why in SCANNER_REFUSALS
    decreases |t| - p, 1
  {
    hide ScanValue, SkipJsonSpace, ScanText;
    if p < |t| {
      RefusedText(t, p + 1);
    }
    var key := ScanName(t, p);
    if key.Found? {
      RefusedValue(t, key.end, rule);
      var one := ScanValue(t, key.end, rule);
      if one.Found? {
        var q := SkipJsonSpace(t, one.end);
        if At(t, q, ',') {
          RefusedMembers(t, SkipJsonSpace(t, q + 1), rule);
        }
      }
    }
  }
}
