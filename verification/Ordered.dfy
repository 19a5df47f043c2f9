/** Finite sets of keys in ascending order, as Python's `sorted` lists them. */
module Ordered {
  type Key = int

  predicate IsLeast(m: Key, ids: set<Key>) { m in ids && forall x | x in ids :: m <= x }

  lemma HasElement(ids: set<Key>)
    ensures ids == {} || exists a: Key :: a in ids
  {
    if !exists a: Key :: a in ids {
      assert ids == {};
    }
  }

  lemma {:induction false} LeastExists(ids: set<Key>)
    requires ids != {}
    ensures exists m :: IsLeast(m, ids)
  {
    HasElement(ids);
    var a: Key :| a in ids;
    var rest := ids - {a};
    if rest == {} {
      assert ids == {a};
      assert IsLeast(a, ids);
    } else {
      LeastExists(rest);
      var m :| IsLeast(m, rest);
      assert ids == rest + {a};
      assert IsLeast(if a <= m then a else m, ids);
    }
  }

  /** `sorted(keys)` */
  function Ascending(ids: set<Key>): (s: seq<Key>)
    decreases |ids|
  {
    if ids == {} then []
    else
      LeastExists(ids);
      var m :| IsLeast(m, ids);
      [m] + Ascending(ids - {m})
  }

  lemma AscendingParts(ids: set<Key>)
    requires ids != {}
    ensures var s := Ascending(ids); s != [] && IsLeast(s[0], ids) && s[1..] == Ascending(ids - {s[0]})
  {
    LeastExists(ids);
    hide IsLeast;
  }

  lemma {:induction false} AscendingSorts(ids: set<Key>)
    ensures var s := Ascending(ids); |s| == |ids| && (forall x :: x in s <==> x in ids) && Increasing(s)
    decreases |ids|
  {
    if ids != {} {
      AscendingParts(ids);
      var s := Ascending(ids);
      var rest := ids - {s[0]};
      assert ids == rest + {s[0]} && s == [s[0]] + s[1..];
      hide Ascending;
      AscendingSorts(rest);
      IncreasingCons(s[0], s[1..]);
    }
  }

  predicate Increasing(s: seq<Key>) { forall i, j | 0 <= i < j < |s| :: s[i] < s[j] }

  lemma IncreasingCons(m: Key, s: seq<Key>)
    requires Increasing(s) && forall x | x in s :: m < x
    ensures Increasing([m] + s)
  {
    var t := [m] + s;
    forall i, j | 0 <= i < j < |t| ensures t[i] < t[j] {
      assert t[j] == s[j - 1] && s[j - 1] in s;
      if i > 0 {
        assert t[i] == s[i - 1];
      }
    }
  }
}
