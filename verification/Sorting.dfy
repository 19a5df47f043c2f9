/** Python's stable ascending sort, as an insertion sort over a comparison. */
module Sorting {

  ghost predicate TotalPreorder<T(!new)>(le: (T, T) -> bool) {
    && (forall x, y :: le(x, y) || le(y, x))
    && (forall x, y, z :: le(x, y) && le(y, z) ==> le(x, z))
  }

  ghost predicate Sorted<T>(s: seq<T>, le: (T, T) -> bool) {
    forall i, j | 0 <= i < j < |s| :: le(s[i], s[j])
  }

  /** `x` in front of the first element that is not below it, so equal elements keep their order. */
  function Insert<T>(x: T, s: seq<T>, le: (T, T) -> bool): (r: seq<T>)
    ensures |r| == |s| + 1
  {
    if s == [] || le(x, s[0]) then [x] + s else [s[0]] + Insert(x, s[1..], le)
  }

  function Sort<T>(s: seq<T>, le: (T, T) -> bool): (r: seq<T>)
    ensures |r| == |s|
  {
    if s == [] then [] else Insert(s[0], Sort(s[1..], le), le)
  }

  lemma {:induction false} InsertKeeps<T>(x: T, s: seq<T>, le: (T, T) -> bool)
    ensures multiset(Insert(x, s, le)) == multiset([x]) + multiset(s)
  {
    if s != [] && !le(x, s[0]) {
      InsertKeeps(x, s[1..], le);
      assert s == [s[0]] + s[1..];
    }
  }

  /** Sorting rearranges: nothing is lost, nothing doubled. */
  lemma {:induction false} SortKeeps<T>(s: seq<T>, le: (T, T) -> bool)
    ensures multiset(Sort(s, le)) == multiset(s)
  {
    if s != [] {
      SortKeeps(s[1..], le);
      InsertKeeps(s[0], Sort(s[1..], le), le);
      assert s == [s[0]] + s[1..];
    }
  }

  lemma SortMembers<T>(s: seq<T>, le: (T, T) -> bool, x: T)
    ensures x in Sort(s, le) <==> x in s
  {
    SortKeeps(s, le);
    assert x in Sort(s, le) <==> x in multiset(Sort(s, le));
  }

  lemma {:induction false} InsertSorted<T(!new)>(x: T, s: seq<T>, le: (T, T) -> bool)
    requires TotalPreorder(le) && Sorted(s, le)
    ensures Sorted(Insert(x, s, le), le)
  {
    if s != [] && !le(x, s[0]) {
      InsertSorted(x, s[1..], le);
      InsertKeeps(x, s[1..], le);
      var r := Insert(x, s[1..], le);
      forall j | 0 <= j < |r| ensures le(s[0], r[j]) {
        assert r[j] in multiset(r);
        assert r[j] == x || r[j] in s[1..];
      }
    }
  }

  lemma {:induction false} SortSorts<T(!new)>(s: seq<T>, le: (T, T) -> bool)
    requires TotalPreorder(le)
    ensures Sorted(Sort(s, le), le)
  {
    if s != [] {
      SortSorts(s[1..], le);
      InsertSorted(s[0], Sort(s[1..], le), le);
    }
  }

  /** The last element of a sorted sequence is above all of the original ones. */
  lemma LastIsGreatest<T(!new)>(s: seq<T>, le: (T, T) -> bool, x: T)
    requires TotalPreorder(le) && x in s
    ensures var r := Sort(s, le); le(x, r[|r| - 1])
  {
    SortSorts(s, le);
    SortMembers(s, le, x);
    var r := Sort(s, le);
    var i :| 0 <= i < |r| && r[i] == x;
    if i == |r| - 1 {
      assert le(x, x);
    }
  }

  /** The elements that the order does not tell from `x`. */
  function Ties<T>(s: seq<T>, le: (T, T) -> bool, x: T): seq<T> {
    if s == [] then [] else (if le(s[0], x) && le(x, s[0]) then [s[0]] else []) + Ties(s[1..], le, x)
  }

  lemma {:induction false} InsertStable<T(!new)>(e: T, s: seq<T>, le: (T, T) -> bool, x: T)
    requires TotalPreorder(le)
    ensures Ties(Insert(e, s, le), le, x) == (if le(e, x) && le(x, e) then [e] else []) + Ties(s, le, x)
  {
    if s == [] || le(e, s[0]) {
      TiesFirst(e, s, le, x);
    } else {
      NotBoth(e, s[0], x, le);
      hide TotalPreorder, Ties;
      InsertStable(e, s[1..], le, x);
      TiesFirst(s[0], Insert(e, s[1..], le), le, x);
      TiesFirst(s[0], s[1..], le, x);
      assert s == [s[0]] + s[1..];
    }
  }

  lemma TiesFirst<T>(e: T, s: seq<T>, le: (T, T) -> bool, x: T)
    ensures Ties([e] + s, le, x) == (if le(e, x) && le(x, e) then [e] else []) + Ties(s, le, x)
  {
    assert ([e] + s)[1..] == s;
  }

  lemma NotBoth<T(!new)>(e: T, f: T, x: T, le: (T, T) -> bool)
    requires TotalPreorder(le) && !le(e, f)
    ensures !(le(e, x) && le(x, f))
  {
  }

  /** Sorting is stable: elements that the order does not tell apart keep their order. */
  lemma {:induction false} SortStable<T(!new)>(s: seq<T>, le: (T, T) -> bool, x: T)
    requires TotalPreorder(le)
    ensures Ties(Sort(s, le), le, x) == Ties(s, le, x)
  {
    if s != [] {
      SortStable(s[1..], le, x);
      InsertStable(s[0], Sort(s[1..], le), le, x);
    }
  }
}
