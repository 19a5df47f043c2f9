/** What a scan depends on: only the characters it consumed, and for a number the fact that
    the character behind it cannot continue it. A span that two texts share, at whatever
    positions, therefore scans to the same value in both. */
module JsonLocality {
  import opened JsonText

  /** The characters `lo..hi` of `t` stand in `u` as well, `k` positions further right. */
  ghost predicate Shared(t: string, u: string, lo: nat, hi: nat, k: int) {
    && lo <= hi <= |t| && 0 <= lo + k && hi + k <= |u|
    && forall i | lo <= i < hi :: t[i] == u[i + k]
  }

  predicate DigitAt(t: string, p: nat) {
    p < |t| && IsDigit(t[p])
  }

  /** The character at `p`, if there is one, cannot continue a number. */
  predicate Stops(t: string, p: nat) {
    !DigitAt(t, p) && !At(t, p, '.') && !At(t, p, 'e') && !At(t, p, 'E')
  }

  lemma {:induction false} JsonSpaceLocal(t: string, u: string, p: nat, k: int)
    requires p <= |t| && Shared(t, u, p, SkipJsonSpace(t, p), k)
    requires var q := SkipJsonSpace(t, p) + k; q < |u| ==> !IsJsonSpace(u[q])
    ensures SkipJsonSpace(u, p + k) == SkipJsonSpace(t, p) + k
    decreases |t| - p
  {
    if p < SkipJsonSpace(t, p) {
      assert t[p] == u[p + k];
      JsonSpaceLocal(t, u, p + 1, k);
    }
  }

  lemma {:induction false} SpaceLocal(t: string, u: string, p: nat, k: int)
    requires p <= |t| && Shared(t, u, p, SkipSpace(t, p), k)
    requires var q := SkipSpace(t, p) + k; q < |u| ==> !IsSpace(u[q])
    ensures SkipSpace(u, p + k) == SkipSpace(t, p) + k
    decreases |t| - p
  {
    if p < SkipSpace(t, p) {
      assert t[p] == u[p + k];
      SpaceLocal(t, u, p + 1, k);
    }
  }

  lemma {:induction false} DigitsLocal(t: string, u: string, p: nat, k: int)
    requires p <= |t|
    requires Shared(t, u, p, SkipDigits(t, p), k)
    requires !DigitAt(u, SkipDigits(t, p) + k)
    ensures SkipDigits(u, p + k) == SkipDigits(t, p) + k
    decreases |t| - p
  {
    if p < SkipDigits(t, p) {
      assert t[p] == u[p + k];
      DigitsLocal(t, u, p + 1, k);
    }
  }

  lemma IntegerLocal(t: string, u: string, p: nat, k: int)
    requires p <= |t|
    requires var i := IntegerEnd(t, p); p < i && Shared(t, u, p, i, k)
    requires !DigitAt(u, IntegerEnd(t, p) + k)
    ensures IntegerEnd(u, p + k) == IntegerEnd(t, p) + k
  {
    var d := if At(t, p, '-') then p + 1 else p;
    assert t[p] == u[p + k];
    assert t[d] == u[d + k];
    if t[d] != '0' {
      DigitsLocal(t, u, d, k);
    }
  }

  lemma FractionLocal(t: string, u: string, p: nat, k: int)
    requires p <= |t|
    requires var f := FractionEnd(t, p); p < f && Shared(t, u, p, f, k)
    requires !DigitAt(u, FractionEnd(t, p) + k)
    ensures FractionEnd(u, p + k) == FractionEnd(t, p) + k
  {
    assert t[p] == u[p + k] && t[p + 1] == u[p + 1 + k];
    DigitsLocal(t, u, p + 1, k);
  }

  lemma ExponentLocal(t: string, u: string, p: nat, k: int)
    requires p <= |t|
    requires var e := ExponentEnd(t, p); p < e && Shared(t, u, p, e, k)
    requires !DigitAt(u, ExponentEnd(t, p) + k)
    ensures ExponentEnd(u, p + k) == ExponentEnd(t, p) + k
  {
    var d := if At(t, p + 1, '+') || At(t, p + 1, '-') then p + 2 else p + 1;
    assert t[p] == u[p + k] && t[p + 1] == u[p + 1 + k] && t[d] == u[d + k];
    DigitsLocal(t, u, d, k);
  }

  lemma NumberLocal(t: string, u: string, p: nat, k: int, i: nat, f: nat, e: nat)
    requires p < i <= f <= e <= |t|
    requires i == IntegerEnd(t, p) && f == FractionEnd(t, i) && e == ExponentEnd(t, f)
    requires Shared(t, u, p, e, k) && Stops(u, e + k)
    ensures IntegerEnd(u, p + k) == i + k
    ensures FractionEnd(u, i + k) == f + k
    ensures ExponentEnd(u, f + k) == e + k
  {
    if i < e { assert t[i] == u[i + k]; }
    if f < e { assert t[f] == u[f + k]; }
    assert !DigitAt(u, f + k) && !DigitAt(u, i + k);
    IntegerLocal(t, u, p, k);
    if i < f {
      FractionLocal(t, u, i, k);
    }
    if f < e {
      ExponentLocal(t, u, f, k);
    }
  }

  lemma {:induction false} TextLocal(t: string, u: string, p: nat, k: int)
    requires p <= |t|
    requires var r := ScanText(t, p); r.Found? && Shared(t, u, p, r.end, k)
    ensures ScanText(u, p + k) == Found(ScanText(t, p).value, ScanText(t, p).end + k)
    decreases |t| - p
  {
    assert t[p] == u[p + k];
    if t[p] != '"' {
      if t[p] != '\\' {
        TextLocal(t, u, p + 1, k);
      } else {
        assert t[p + 1] == u[p + 1 + k];
        if t[p + 1] == 'u' {
          assert HexAt(t, p + 2);
          TextLocal(t, u, p + 6, k);
          assert forall i | p + 2 <= i < p + 6 :: t[i] == u[i + k];
          assert t[p + 2] == u[p + k + 2] && t[p + 3] == u[p + k + 3] && t[p + 4] == u[p + k + 4] && t[p + 5] == u[p + k + 5];
          assert HexAt(u, p + k + 2);
        } else {
          TextLocal(t, u, p + 2, k);
        }
      }
    }
  }

  lemma NumberValueLocal(t: string, u: string, p: nat, k: int, rule: NumberRule)
    requires p <= |t|
    requires var r := ScanNumber(t, p, rule); r.Found? && Shared(t, u, p, r.end, k) && Stops(u, r.end + k)
    ensures ScanNumber(u, p + k, rule) == Found(ScanNumber(t, p, rule).value, ScanNumber(t, p, rule).end + k)
  {
    hide IntegerEnd, FractionEnd, ExponentEnd;
    var i := IntegerEnd(t, p);
    var f := FractionEnd(t, i);
    var e := ExponentEnd(t, f);
    NumberLocal(t, u, p, k, i, f, e);
    assert t[p..e] == u[p + k..e + k];
  }

  /** The literal names and the numbers: tokens without inner structure. */
  lemma WordLocal(t: string, u: string, p: nat, k: int, rule: NumberRule)
    requires p < |t|
    requires var r := ScanWord(t, p, rule); r.Found? && Shared(t, u, p, r.end, k) && Stops(u, r.end + k)
    ensures ScanWord(u, p + k, rule) == Found(ScanWord(t, p, rule).value, ScanWord(t, p, rule).end + k)
  {
    FirstOfWord(u, p + k);
    hide ScanNumber, StartsAt;
    if StartsAt(t, p, "null") {
      WordShared(t, u, p, k, "null");
    } else if StartsAt(t, p, "true") {
      WordShared(t, u, p, k, "true");
      OtherFirst(u, p + k, "null");
    } else if StartsAt(t, p, "false") {
      WordShared(t, u, p, k, "false");
      OtherFirst(u, p + k, "null");
      OtherFirst(u, p + k, "true");
    } else {
      NumberValueLocal(t, u, p, k, rule);
      NotAWord(t, u, p, k, rule);
    }
  }

  lemma WordShared(t: string, u: string, p: nat, k: int, word: string)
    requires StartsAt(t, p, word) && Shared(t, u, p, p + |word|, k)
    ensures StartsAt(u, p + k, word)
  {
    forall i | 0 <= i < |word| ensures u[p + k + i] == word[i] {
      assert t[p + i] == u[p + i + k];
    }
  }

  lemma FirstOfWord(t: string, p: nat)
    ensures StartsAt(t, p, "true") ==> t[p] == 't'
    ensures StartsAt(t, p, "false") ==> t[p] == 'f'
  {
    assert "true"[0] == 't' && "false"[0] == 'f';
  }

  lemma OtherFirst(t: string, p: nat, word: string)
    requires p < |t| && word != "" && t[p] != word[0]
    ensures !StartsAt(t, p, word)
  {
    assert t[p + 0] != word[0];
  }

  /** The text at a shared number starts none of the literal names. */
  lemma NotAWord(t: string, u: string, p: nat, k: int, rule: NumberRule)
    requires p <= |t| && ScanNumber(t, p, rule).Found? && Shared(t, u, p, ScanNumber(t, p, rule).end, k)
    ensures !StartsAt(u, p + k, "null") && !StartsAt(u, p + k, "true") && !StartsAt(u, p + k, "false")
    ensures !StartsAt(u, p + k, "NaN") && !StartsAt(u, p + k, "Infinity") && !StartsAt(u, p + k, "-Infinity")
  {
    assert t[p] == u[p + k];
    OtherFirst(u, p + k, "null");
    OtherFirst(u, p + k, "true");
    OtherFirst(u, p + k, "false");
    OtherFirst(u, p + k, "NaN");
    OtherFirst(u, p + k, "Infinity");
    if u[p + k] == '-' {
      assert t[p + 1] == u[p + 1 + k] && u[p + 1 + k] != "-Infinity"[1];
    } else {
      OtherFirst(u, p + k, "-Infinity");
    }
  }

  /** A scanned value reads the same wherever its characters stand, if a number is not continued. */
  lemma {:induction false} ValueLocal(t: string, u: string, p: nat, k: int, rule: NumberRule)
    requires p <= |t|
    requires var r := ScanValue(t, p, rule); r.Found? && Shared(t, u, p, r.end, k) && Stops(u, r.end + k)
    ensures ScanValue(u, p + k, rule) == Found(ScanValue(t, p, rule).value, ScanValue(t, p, rule).end + k)
    decreases |t| - p, 1
  {
    assert t[p] == u[p + k];
    if t[p] == '{' {
      ObjectLocal(t, u, p, k, rule);
    } else if t[p] == '[' {
      ArrayLocal(t, u, p, k, rule);
    } else {
      hide ScanWord, ScanText, ScanItems, ScanMembers, SkipJsonSpace, Distinct;
      if t[p] == '"' {
        TextLocal(t, u, p + 1, k);
      } else {
        WordLocal(t, u, p, k, rule);
      }
    }
  }

  lemma {:induction false} ObjectLocal(t: string, u: string, p: nat, k: int, rule: NumberRule)
    requires At(t, p, '{')
    requires var r := ScanValue(t, p, rule); r.Found? && Shared(t, u, p, r.end, k)
    ensures ScanValue(u, p + k, rule) == Found(ScanValue(t, p, rule).value, ScanValue(t, p, rule).end + k)
    decreases |t| - p, 0
  {
    hide ScanWord, ScanText, ScanItems, ScanMembers, SkipJsonSpace, Distinct;
    var q := SkipJsonSpace(t, p + 1);
    assert t[p] == u[p + k] && t[q] == u[q + k];
    JsonSpaceLocal(t, u, p + 1, k);
    if t[q] != '}' {
      MembersLocal(t, u, q, k, rule);
    }
  }

  lemma {:induction false} ArrayLocal(t: string, u: string, p: nat, k: int, rule: NumberRule)
    requires At(t, p, '[')
    requires var r := ScanValue(t, p, rule); r.Found? && Shared(t, u, p, r.end, k)
    ensures ScanValue(u, p + k, rule) == Found(ScanValue(t, p, rule).value, ScanValue(t, p, rule).end + k)
    decreases |t| - p, 0
  {
    hide ScanWord, ScanText, ScanItems, ScanMembers, SkipJsonSpace, Distinct;
    var q := SkipJsonSpace(t, p + 1);
    assert t[p] == u[p + k] && t[q] == u[q + k];
    JsonSpaceLocal(t, u, p + 1, k);
    if t[q] != ']' {
      ItemsLocal(t, u, q, k, rule);
    }
  }

  /** The parts of a scanned item list. */
  lemma ItemsParts(t: string, p: nat, rule: NumberRule)
    returns (item: Value, after: nat, q: nat, rest: seq<Value>)
    requires p <= |t| && ScanItems(t, p, rule).Found?
    ensures ScanValue(t, p, rule) == Found(item, after) && after <= |t|
    ensures q == SkipJsonSpace(t, after) && q < |t|
    ensures q < ScanItems(t, p, rule).end
    ensures t[q] == ']' ==> rest == [] && ScanItems(t, p, rule) == Found([item], q + 1)
    ensures t[q] != ']' ==>
      && t[q] == ','
      && ScanItems(t, SkipJsonSpace(t, q + 1), rule) == Found(rest, ScanItems(t, p, rule).end)
      && ScanItems(t, p, rule).value == [item] + rest
  {
    hide ScanValue, SkipJsonSpace;
    var one := ScanValue(t, p, rule);
    item, after := one.value, one.end;
    q := SkipJsonSpace(t, after);
    rest := if t[q] == ']' then [] else ScanItems(t, SkipJsonSpace(t, q + 1), rule).value;
  }

  lemma LastItem(t: string, p: nat, rule: NumberRule, item: Value, after: nat)
    requires p <= |t| && ScanValue(t, p, rule) == Found(item, after)
    requires At(t, SkipJsonSpace(t, after), ']')
    ensures ScanItems(t, p, rule) == Found([item], SkipJsonSpace(t, after) + 1)
  {
    hide ScanValue, SkipJsonSpace;
  }

  lemma MoreItems(t: string, p: nat, rule: NumberRule, item: Value, after: nat, rest: seq<Value>, end: nat)
    requires p <= |t| && ScanValue(t, p, rule) == Found(item, after)
    requires At(t, SkipJsonSpace(t, after), ',')
    requires ScanItems(t, SkipJsonSpace(t, SkipJsonSpace(t, after) + 1), rule) == Found(rest, end)
    ensures ScanItems(t, p, rule) == Found([item] + rest, end)
  {
    hide ScanValue, SkipJsonSpace;
  }

  lemma {:induction false} ItemsLocal(t: string, u: string, p: nat, k: int, rule: NumberRule)
    requires p <= |t|
    requires var r := ScanItems(t, p, rule); r.Found? && Shared(t, u, p, r.end, k)
    ensures ScanItems(u, p + k, rule) == Found(ScanItems(t, p, rule).value, ScanItems(t, p, rule).end + k)
    decreases |t| - p, 2
  {
    hide ScanValue, ScanItems, SkipJsonSpace;
    var item, after, q, rest := ItemsParts(t, p, rule);
    assert t[after] == u[after + k] && t[q] == u[q + k];
    ValueLocal(t, u, p, k, rule);
    JsonSpaceLocal(t, u, after, k);
    if t[q] == ',' {
      var next := SkipJsonSpace(t, q + 1);
      assert t[next] == u[next + k];
      JsonSpaceLocal(t, u, q + 1, k);
      ItemsLocal(t, u, next, k, rule);
      MoreItems(u, p + k, rule, item, after + k, rest, ScanItems(t, p, rule).end + k);
    } else {
      LastItem(u, p + k, rule, item, after + k);
    }
  }

  lemma NameLocal(t: string, u: string, p: nat, k: int)
    requires p <= |t|
    requires var r := ScanName(t, p); r.Found? && r.end < |t| && Shared(t, u, p, r.end + 1, k)
    ensures ScanName(u, p + k) == Found(ScanName(t, p).value, ScanName(t, p).end + k)
  {
    hide ScanText, SkipJsonSpace;
    assert t[p] == u[p + k];
    TextLocal(t, u, p + 1, k);
    var after := ScanText(t, p + 1).end;
    var colon := SkipJsonSpace(t, after);
    assert t[colon] == u[colon + k];
    JsonSpaceLocal(t, u, after, k);
    JsonSpaceLocal(t, u, colon + 1, k);
  }

  /** The parts of a scanned member list. */
  lemma MembersParts(t: string, p: nat, rule: NumberRule)
    returns (name: seq<int>, begin: nat, value: Value, after: nat, q: nat, rest: seq<Pair>)
    requires p <= |t| && ScanMembers(t, p, rule).Found?
    ensures ScanName(t, p) == Found(name, begin) && p < begin <= |t|
    ensures ScanValue(t, begin, rule) == Found(value, after) && begin < after <= |t|
    ensures q == SkipJsonSpace(t, after) && q < |t|
    ensures q < ScanMembers(t, p, rule).end
    ensures t[q] == '}' ==> rest == [] && ScanMembers(t, p, rule) == Found([Pair(name, value)], q + 1)
    ensures t[q] != '}' ==>
      && t[q] == ','
      && ScanMembers(t, SkipJsonSpace(t, q + 1), rule) == Found(rest, ScanMembers(t, p, rule).end)
      && ScanMembers(t, p, rule).value == [Pair(name, value)] + rest
  {
    hide ScanValue, ScanName, SkipJsonSpace;
    var one := ScanName(t, p);
    name, begin := one.value, one.end;
    var two := ScanValue(t, begin, rule);
    value, after := two.value, two.end;
    q := SkipJsonSpace(t, after);
    rest := if t[q] == '}' then [] else ScanMembers(t, SkipJsonSpace(t, q + 1), rule).value;
  }

  lemma LastMember(t: string, p: nat, rule: NumberRule, name: seq<int>, begin: nat, value: Value, after: nat)
    requires p <= |t| && ScanName(t, p) == Found(name, begin)
    requires ScanValue(t, begin, rule) == Found(value, after)
    requires At(t, SkipJsonSpace(t, after), '}')
    ensures ScanMembers(t, p, rule) == Found([Pair(name, value)], SkipJsonSpace(t, after) + 1)
  {
    hide ScanValue, ScanName, SkipJsonSpace;
  }

  lemma MoreMembers(t: string, p: nat, rule: NumberRule, name: seq<int>, begin: nat, value: Value, after: nat,
                    rest: seq<Pair>, end: nat)
    requires p <= |t| && ScanName(t, p) == Found(name, begin)
    requires ScanValue(t, begin, rule) == Found(value, after)
    requires At(t, SkipJsonSpace(t, after), ',')
    requires ScanMembers(t, SkipJsonSpace(t, SkipJsonSpace(t, after) + 1), rule) == Found(rest, end)
    ensures ScanMembers(t, p, rule) == Found([Pair(name, value)] + rest, end)
  {
    hide ScanValue, ScanName, SkipJsonSpace;
  }

  lemma {:induction false} MembersLocal(t: string, u: string, p: nat, k: int, rule: NumberRule)
    requires p <= |t|
    requires var r := ScanMembers(t, p, rule); r.Found? && Shared(t, u, p, r.end, k)
    ensures ScanMembers(u, p + k, rule) == Found(ScanMembers(t, p, rule).value, ScanMembers(t, p, rule).end + k)
    decreases |t| - p, 2
  {
    hide ScanValue, ScanMembers, ScanName, SkipJsonSpace;
    var name, begin, value, after, q, rest := MembersParts(t, p, rule);
    assert t[after] == u[after + k] && t[q] == u[q + k];
    NameLocal(t, u, p, k);
    ValueLocal(t, u, begin, k, rule);
    JsonSpaceLocal(t, u, after, k);
    if t[q] == ',' {
      var next := SkipJsonSpace(t, q + 1);
      assert t[next] == u[next + k];
      JsonSpaceLocal(t, u, q + 1, k);
      MembersLocal(t, u, next, k, rule);
      MoreMembers(u, p + k, rule, name, begin + k, value, after + k, rest, ScanMembers(t, p, rule).end + k);
    } else {
      LastMember(u, p + k, rule, name, begin + k, value, after + k);
    }
  }
}
