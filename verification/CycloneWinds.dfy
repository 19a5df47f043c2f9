/** The retained wind readings of cyclones: the newest sixteen of each storm, later snapshots winning. */
module CycloneWinds {
  import opened Common
  import opened Ordered

  const MAX_ITEMS: nat := 16

  /** One stored row. A missing time, or a wind that is not a number, is none; a missing wind counts as 0. */
  datatype Row = Junk | Row(at: Option<Key>, wind: Option<int>)

  datatype Reading = Reading(at: Key, wind: int)

  /** The dictionary by time. */
  type ByTime = map<Key, int>

  function Put(m: ByTime, r: Row): ByTime {
    if r.Row? && r.at.Some? && r.wind.Some? then m[r.at.value := r.wind.value] else m
  }

  function PutAll(m: ByTime, rows: seq<Row>): ByTime
    decreases |rows|
  {
    if rows == [] then m else PutAll(Put(m, rows[0]), rows[1..])
  }

  function Above(s: set<Key>, x: Key): set<Key> { set y | y in s && y > x }

  /** Fewer than sixteen are newer. */
  function Newest(s: set<Key>): set<Key> { set x | x in s && |Above(s, x)| < MAX_ITEMS }

  function Tail(s: seq<Key>): seq<Key> { LastOnes(s, MAX_ITEMS) }

  function Readings(m: ByTime, keys: seq<Key>): (r: seq<Reading>)
    requires forall k | k in keys :: k in m
    ensures |r| == |keys|
  {
    if keys == [] then []
    else
      var k := keys[0];
      [Reading(k, m[k])] + Readings(m, keys[1..])
  }

  lemma TailKnown(m: ByTime)
    ensures forall k | k in Tail(Ascending(m.Keys)) :: k in m
  {
    AscendingSorts(m.Keys);
    hide Ascending;
  }

  /** The stored list: the newest readings in time order. */
  function Window(m: ByTime): seq<Reading> {
    TailKnown(m);
    Readings(m, Tail(Ascending(m.Keys)))
  }

  // ----- the merge

  /** One storm of `_merge_cyclone_wind_history`. */
  method MergeStorm(current: seq<Row>, incoming: seq<Row>) returns (rows: seq<Reading>)
    ensures rows == Window(PutAll(map[], current + incoming))
  {
    var all := current + incoming;
    var byTime: ByTime := map[];
    for i := 0 to |all|
      invariant PutAll(byTime, all[i..]) == PutAll(map[], all)
    {
      var r := all[i];
      assert all[i..][0] == r && all[i..][1..] == all[i + 1..];
      if r.Junk? || r.at.None? || r.wind.None? {
        continue;
      }
      byTime := byTime[r.at.value := r.wind.value];
    }
    assert byTime == PutAll(map[], all);
    var keys := Ascending(byTime.Keys);
    TailKnown(byTime);
    rows := Readings(byTime, Tail(keys));
  }

  function RowsOf(h: map<string, seq<Row>>, storm: string): seq<Row> { if storm in h then h[storm] else [] }

  /** `_merge_cyclone_wind_history` */
  method MergeWindHistory(current: map<string, seq<Row>>, incoming: map<string, seq<Row>>)
    returns (merged: map<string, seq<Reading>>)
    ensures merged.Keys == current.Keys + incoming.Keys
    ensures forall s | s in merged :: merged[s] == Window(PutAll(map[], RowsOf(current, s) + RowsOf(incoming, s)))
  {
    merged := map[];
    var storms := current.Keys + incoming.Keys;
    while storms != {}
      invariant storms <= current.Keys + incoming.Keys && merged.Keys == current.Keys + incoming.Keys - storms
      invariant forall s | s in merged :: merged[s] == Window(PutAll(map[], RowsOf(current, s) + RowsOf(incoming, s)))
      decreases storms
    {
      var s :| s in storms;
      var rows := MergeStorm(RowsOf(current, s), RowsOf(incoming, s));
      merged := merged[s := rows];
      storms := storms - {s};
    }
  }

  // ----- the newest keys

  lemma AboveShrinks(s: set<Key>, t: set<Key>, x: Key)
    requires s <= t
    ensures |Above(s, x)| <= |Above(t, x)|
  {
    SubsetSize(Above(s, x), Above(t, x));
  }

  /** In an increasing list the elements above one are those behind it. */
  lemma AboveInList(s: seq<Key>, keys: set<Key>, i: nat)
    requires Increasing(s) && (forall k :: k in s <==> k in keys) && i < |s|
    ensures |Above(keys, s[i])| == |s| - 1 - i
  {
    var rest := s[i + 1..];
    var above := Above(keys, s[i]);
    forall k ensures k in above <==> k in rest {
      if k in above {
        var j :| 0 <= j < |s| && s[j] == k;
        assert j > i;
        assert rest[j - i - 1] == k;
      }
      if k in rest {
        var j :| 0 <= j < |rest| && rest[j] == k;
        assert s[i + 1 + j] == k;
      }
    }
    assert Increasing(rest);
    IncreasingCount(rest, above);
  }

  lemma {:induction false} IncreasingCount(s: seq<Key>, keys: set<Key>)
    requires Increasing(s) && forall k :: k in s <==> k in keys
    ensures |keys| == |s|
  {
    if s == [] {
      HasElement(keys);
    } else {
      var first, rest := s[0], s[1..];
      assert s == [first] + rest;
      assert first !in rest && Increasing(rest);
      IncreasingCount(rest, keys - {first});
    }
  }

  /** The tail of the sorted list holds exactly the newest keys. */
  lemma TailIsNewest(keys: set<Key>)
    ensures forall k :: k in Tail(Ascending(keys)) <==> k in Newest(keys)
  {
    AscendingSorts(keys);
    var s := Ascending(keys);
    hide Ascending;
    forall i | 0 <= i < |s| ensures s[i] in Newest(keys) <==> |s| - 1 - i < MAX_ITEMS {
      AboveInList(s, keys, i);
    }
    hide Newest, Increasing;
    TailHolds(s, Newest(keys));
    forall k ensures k in Tail(s) <==> k in Newest(keys) {
      if k in Newest(keys) {
        NewestWithin(keys, k);
      }
    }
  }

  lemma NewestWithin(keys: set<Key>, k: Key)
    requires k in Newest(keys)
    ensures k in keys
  {
  }

  lemma TailHolds(s: seq<Key>, newest: set<Key>)
    requires forall i | 0 <= i < |s| :: s[i] in newest <==> |s| - 1 - i < MAX_ITEMS
    ensures forall k | k in s :: k in Tail(s) <==> k in newest
    ensures forall k | k in Tail(s) :: k in s
  {
    var d := if |s| <= MAX_ITEMS then 0 else |s| - MAX_ITEMS;
    assert Tail(s) == s[d..];
    forall k | k in s ensures k in Tail(s) <==> k in newest {
      var i :| 0 <= i < |s| && s[i] == k;
      if i >= d {
        assert s[d..][i - d] == k;
      }
      if k in s[d..] {
        var j :| 0 <= j < |s[d..]| && s[d..][j] == k;
        assert s[d + j] == k && s[d + j] in newest;
      }
    }
  }

  /** Retaining in two steps is retaining in one. */
  lemma NewestAbsorbs(a: set<Key>, b: set<Key>)
    ensures Newest(Newest(a) + b) == Newest(a + b)
  {
    var u := Newest(a) + b;
    forall x | x in Newest(a + b) ensures x in Newest(u) {
      if x in a {
        AboveShrinks(a, a + b, x);
      }
      AboveShrinks(u, a + b, x);
    }
    forall x | x in Newest(u) ensures x in Newest(a + b) {
      ManyStayMany(a, b, x);
    }
  }

  /** If many in `a + b` are newer than `x`, then many of those that are retained are. */
  lemma ManyStayMany(a: set<Key>, b: set<Key>, x: Key)
    requires |Above(Newest(a) + b, x)| < MAX_ITEMS
    ensures |Above(a + b, x)| < MAX_ITEMS
  {
    var u, all := Newest(a) + b, a + b;
    if |Above(all, x)| >= MAX_ITEMS {
      if Above(all, x) <= u {
        SubsetSize(Above(all, x), Above(u, x));
      } else {
        var y :| y in Above(all, x) && y !in u;
        assert y in a && |Above(a, y)| >= MAX_ITEMS;
        NewestAboveKept(a, y);
        SubsetSize(Above(Newest(a), y), Above(u, x));
      }
    }
  }

  /** Above any key at least sixteen of sixteen or more newer ones are retained. */
  lemma {:induction false} NewestAboveKept(a: set<Key>, y: Key)
    requires |Above(a, y)| >= MAX_ITEMS
    ensures |Above(Newest(a), y)| >= MAX_ITEMS
    decreases |Above(a, y)|
  {
    var above := Above(a, y);
    if above <= Newest(a) {
      assert Above(Newest(a), y) == above;
    } else {
      var z :| z in above && z !in Newest(a);
      assert Above(a, z) < above by {
        assert z !in Above(a, z);
      }
      StrictlyFewer(Above(a, z), above);
      NewestAboveKept(a, z);
      SubsetSize(Above(Newest(a), z), Above(Newest(a), y));
    }
  }

  lemma StrictlyFewer(s: set<Key>, t: set<Key>)
    requires s < t
    ensures |s| < |t|
  {
    HasElement(t - s);
    var x: Key :| x in t - s;
    SubsetSize(s, t - {x});
  }

  // ----- whole lists

  function AsRows(readings: seq<Reading>): (rows: seq<Row>)
    ensures |rows| == |readings|
  {
    seq(|readings|, i requires 0 <= i < |readings| => Row(Some(readings[i].at), Some(readings[i].wind)))
  }

  lemma {:induction false} PutAllOver(m: ByTime, rows: seq<Row>)
    ensures PutAll(m, rows) == m + PutAll(map[], rows)
    decreases |rows|
  {
    if rows != [] {
      var one := Put(map[], rows[0]);
      PutAllOver(Put(m, rows[0]), rows[1..]);
      PutAllOver(one, rows[1..]);
      assert Put(m, rows[0]) == m + one;
      assert m + one + PutAll(map[], rows[1..]) == m + (one + PutAll(map[], rows[1..]));
    }
  }

  lemma {:induction false} PutAllChains(m: ByTime, a: seq<Row>, b: seq<Row>)
    ensures PutAll(m, a + b) == PutAll(PutAll(m, a), b)
    decreases |a|
  {
    if a == [] {
      assert a + b == b;
    } else {
      assert (a + b)[0] == a[0] && (a + b)[1..] == a[1..] + b;
      PutAllChains(Put(m, a[0]), a[1..], b);
    }
  }

  function Only(m: ByTime, keys: set<Key>): ByTime { map k | k in m && k in keys :: m[k] }

  /** Stored readings, read back: the entries of the dictionary under their keys. */
  lemma {:induction false} ReadBack(m: ByTime, keys: seq<Key>)
    requires forall k | k in keys :: k in m
    ensures PutAll(map[], AsRows(Readings(m, keys))) == Only(m, set k | k in keys)
    decreases |keys|
  {
    if keys == [] {
      assert Only(m, set k | k in keys) == map[];
    } else {
      var k, rest := keys[0], keys[1..];
      assert keys == [k] + rest;
      ReadBack(m, rest);
      var rows := AsRows(Readings(m, keys));
      assert rows[0] == Row(Some(k), Some(m[k])) && rows[1..] == AsRows(Readings(m, rest));
      PutAllOver(map[k := m[k]], rows[1..]);
      assert Put(map[], rows[0]) == map[k := m[k]];
      assert map[k := m[k]] + Only(m, set x | x in rest) == Only(m, set x | x in keys);
    }
  }

  lemma WindowReadBack(m: ByTime)
    ensures PutAll(map[], AsRows(Window(m))) == Only(m, Newest(m.Keys))
  {
    TailKnown(m);
    TailIsNewest(m.Keys);
    var keys := Tail(Ascending(m.Keys));
    assert forall k :: k in keys <==> k in Newest(m.Keys);
    hide Tail, Ascending, Newest;
    ReadBack(m, keys);
    assert (set k | k in keys) == Newest(m.Keys);
  }

  lemma {:induction false} SameIncreasing(a: seq<Key>, b: seq<Key>)
    requires Increasing(a) && Increasing(b) && forall k :: k in a <==> k in b
    ensures a == b
  {
    if a == [] {
      HasFirst(b);
    } else {
      var k := a[0];
      assert k in a && k in b;
      FirstIsLeast(a);
      FirstIsLeast(b);
      var l := b[0];
      assert l in b && l in a;
      assert k == l;
      var x, y := a[1..], b[1..];
      assert a == [k] + x && b == [k] + y && Increasing(x) && Increasing(y);
      forall z ensures z in x <==> z in y {
        assert z in a <==> z == k || z in x;
        assert z in b <==> z == k || z in y;
        NotAgain(a);
        NotAgain(b);
      }
      SameIncreasing(x, y);
    }
  }

  lemma HasFirst(s: seq<Key>)
    ensures s == [] || exists k :: k in s
  {
    if s != [] {
      var k := s[0];
      assert k in s;
    }
  }

  lemma FirstIsLeast(s: seq<Key>)
    requires Increasing(s) && s != []
    ensures forall k | k in s :: s[0] <= k
  {
  }

  lemma NotAgain(s: seq<Key>)
    requires Increasing(s) && s != []
    ensures s[0] !in s[1..]
  {
  }

  lemma TailIncreases(s: seq<Key>)
    requires Increasing(s)
    ensures Increasing(Tail(s))
  {
  }

  lemma {:induction false} SameReadings(m: ByTime, n: ByTime, keys: seq<Key>)
    requires forall k | k in keys :: k in m && k in n && m[k] == n[k]
    ensures Readings(m, keys) == Readings(n, keys)
  {
    if keys != [] {
      assert keys == [keys[0]] + keys[1..];
      SameReadings(m, n, keys[1..]);
    }
  }

  /** The window depends on the newest entries only. */
  lemma SameWindow(m: ByTime, n: ByTime)
    requires Newest(m.Keys) == Newest(n.Keys) && forall k | k in Newest(m.Keys) :: k in m && k in n && m[k] == n[k]
    ensures Window(m) == Window(n)
  {
    TailIsNewest(m.Keys);
    TailIsNewest(n.Keys);
    AscendingSorts(m.Keys);
    AscendingSorts(n.Keys);
    TailIncreases(Ascending(m.Keys));
    TailIncreases(Ascending(n.Keys));
    TailKnown(m);
    TailKnown(n);
    var x, y := Tail(Ascending(m.Keys)), Tail(Ascending(n.Keys));
    hide Tail, Ascending, Newest, Increasing;
    SameIncreasing(x, y);
    SameReadings(m, n, x);
  }

  /** MAIN RESULT. Storing a window and merging a snapshot into it later is the same as merging the snapshot into
      everything that was ever observed: what the cap dropped never matters again. */
  lemma WindowAbsorbs(a: seq<Row>, b: seq<Row>)
    ensures Window(PutAll(map[], AsRows(Window(PutAll(map[], a))) + b)) == Window(PutAll(map[], a + b))
  {
    var m, n := PutAll(map[], a), PutAll(map[], b);
    var stored := AsRows(Window(m));
    PutAllChains(map[], stored, b);
    PutAllChains(map[], a, b);
    WindowReadBack(m);
    var kept := Only(m, Newest(m.Keys));
    PutAllOver(kept, b);
    PutAllOver(m, b);
    KeptKeys(m);
    hide PutAll, Window;
    assert (kept + n).Keys == Newest(m.Keys) + n.Keys && (m + n).Keys == m.Keys + n.Keys;
    NewestAbsorbs(m.Keys, n.Keys);
    WithinKeys((kept + n).Keys);
    hide Newest;
    SameWindow(kept + n, m + n);
  }

  lemma KeptKeys(m: ByTime)
    ensures Only(m, Newest(m.Keys)).Keys == Newest(m.Keys)
  {
  }

  lemma WithinKeys(s: set<Key>)
    ensures Newest(s) <= s
  {
  }

  /** Snapshots of one storm merged one after another into what is stored. */
  function Stored(first: seq<Row>, incoming: seq<seq<Row>>): seq<Reading>
    decreases |incoming|
  {
    if incoming == [] then Window(PutAll(map[], first))
    else
      var n := |incoming| - 1;
      Window(PutAll(map[], AsRows(Stored(first, incoming[..n])) + incoming[n]))
  }

  function Joined(first: seq<Row>, incoming: seq<seq<Row>>): seq<Row>
    decreases |incoming|
  {
    if incoming == [] then first else Joined(first, incoming[..|incoming| - 1]) + incoming[|incoming| - 1]
  }

  /** MAIN RESULT. Over any sequence of merges the stored readings of a storm are exactly the newest sixteen of all that
      were ever observed, each as the latest snapshot had it. */
  lemma {:induction false} StoredAreNewest(first: seq<Row>, incoming: seq<seq<Row>>)
    ensures Stored(first, incoming) == Window(PutAll(map[], Joined(first, incoming)))
    decreases |incoming|
  {
    if incoming != [] {
      var n := |incoming| - 1;
      StoredAreNewest(first, incoming[..n]);
      WindowAbsorbs(Joined(first, incoming[..n]), incoming[n]);
    }
  }
}
