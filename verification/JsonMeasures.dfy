/** What the limits of a document count: the places of a value and how deep they lie, and the bytes of its text. */
module JsonMeasures {
  import opened JsonText

  /** A way into a value: at each level the position of an item or member. */
  type Path = seq<nat>

  /** The path leads to a node of the value. */
  predicate Leads(v: Value, p: Path)
    decreases |p|
  {
    p == [] ||
      match v
      case Array(items) => p[0] < |items| && Leads(items[p[0]], p[1..])
      case Object(members) => p[0] < |members| && Leads(members[p[0]].value, p[1..])
      case _ => false
  }

  /** The path leads into a list whose first entry is numbered `k`. */
  predicate EntersItems(items: seq<Value>, k: nat, p: Path) {
    p != [] && k <= p[0] < k + |items| && Leads(items[p[0] - k], p[1..])
  }

  predicate EntersMembers(members: seq<Pair>, k: nat, p: Path) {
    p != [] && k <= p[0] < k + |members| && Leads(members[p[0] - k].value, p[1..])
  }

  // ----- depth

  /** MAIN RESULT. The height of a value is the length of its longest path. */
  lemma {:induction false} HeightIsDeepest(v: Value) returns (deepest: Path)
    ensures Leads(v, deepest) && |deepest| == Height(v)
    ensures forall p | Leads(v, p) :: |p| <= Height(v)
    decreases v, 1
  {
    match v
    case Array(items) =>
      var w := ItemsDeepest(items);
      deepest := if items == [] then [] else w;
      forall p | Leads(v, p) ensures |p| <= Height(v) {
        assert p == [] || EntersItems(items, 0, p);
      }
    case Object(members) =>
      var w := MembersDeepest(members);
      deepest := if members == [] then [] else w;
      forall p | Leads(v, p) ensures |p| <= Height(v) {
        assert p == [] || EntersMembers(members, 0, p);
      }
    case _ =>
      deepest := [];
  }

  lemma {:induction false} ItemsDeepest(items: seq<Value>) returns (deepest: Path)
    ensures items != [] ==> EntersItems(items, 0, deepest) && |deepest| == ItemHeight(items)
    ensures forall p | EntersItems(items, 0, p) :: |p| <= ItemHeight(items)
    decreases items, 0
  {
    if items == [] {
      deepest := [];
    } else {
      var first, rest := items[0], items[1..];
      var a := HeightIsDeepest(first);
      var b := ItemsDeepest(rest);
      hide Leads, Height;
      assert ([0] + a)[1..] == a;
      if 1 + Height(first) < ItemHeight(rest) {
        deepest := [b[0] + 1] + b[1..];
        assert deepest[1..] == b[1..] && items[deepest[0]] == rest[b[0]];
      } else {
        deepest := [0] + a;
      }
      forall p | EntersItems(items, 0, p) ensures |p| <= ItemHeight(items) {
        if p[0] > 0 {
          var q := [p[0] - 1] + p[1..];
          assert q[1..] == p[1..] && rest[q[0]] == items[p[0]] && EntersItems(rest, 0, q);
        }
      }
    }
  }

  lemma {:induction false} MembersDeepest(members: seq<Pair>) returns (deepest: Path)
    ensures members != [] ==> EntersMembers(members, 0, deepest) && |deepest| == MemberHeight(members)
    ensures forall p | EntersMembers(members, 0, p) :: |p| <= MemberHeight(members)
    decreases members, 0
  {
    if members == [] {
      deepest := [];
    } else {
      var first, rest := members[0].value, members[1..];
      var a := HeightIsDeepest(first);
      var b := MembersDeepest(rest);
      hide Leads, Height;
      assert ([0] + a)[1..] == a;
      if 1 + Height(first) < MemberHeight(rest) {
        deepest := [b[0] + 1] + b[1..];
        assert deepest[1..] == b[1..] && members[deepest[0]] == rest[b[0]];
      } else {
        deepest := [0] + a;
      }
      forall p | EntersMembers(members, 0, p) ensures |p| <= MemberHeight(members) {
        if p[0] > 0 {
          var q := [p[0] - 1] + p[1..];
          assert q[1..] == p[1..] && rest[q[0]] == members[p[0]] && EntersMembers(rest, 0, q);
        }
      }
    }
  }

  // ----- nodes

  /** The paths of `ps` below the entry numbered `k`. */
  function Below(k: nat, ps: set<Path>): set<Path> { set p | p in ps :: [k] + p }

  lemma {:induction false} BelowSize(k: nat, ps: set<Path>)
    ensures |Below(k, ps)| == |ps|
    ensures forall p | p in Below(k, ps) :: p != [] && p[0] == k && p[1..] in ps
    ensures forall p: Path | p != [] && p[0] == k && p[1..] in ps :: p in Below(k, ps)
  {
    forall p | p in Below(k, ps) ensures p != [] && p[0] == k && p[1..] in ps {
      var q :| q in ps && p == [k] + q;
      assert p[1..] == q;
    }
    forall p: Path | p != [] && p[0] == k && p[1..] in ps ensures p in Below(k, ps) {
      assert p == [k] + p[1..];
    }
    if ps != {} {
      var q :| q in ps;
      BelowSize(k, ps - {q});
      BelowLess(k, ps, q);
    }
  }

  lemma BelowLess(k: nat, ps: set<Path>, q: Path)
    requires q in ps
    ensures Below(k, ps) == Below(k, ps - {q}) + {[k] + q} && [k] + q !in Below(k, ps - {q})
  {
    forall p | p in Below(k, ps) ensures p in Below(k, ps - {q}) + {[k] + q} {
      var r :| r in ps && p == [k] + r;
      assert r != q ==> r in ps - {q};
    }
    forall r | r in ps - {q} ensures [k] + r != [k] + q {
      assert ([k] + r)[1..] == r && ([k] + q)[1..] == q;
    }
  }

  /** MAIN RESULT. The node count of a value is the number of its paths. */
  lemma {:induction false} NodesAreCounted(v: Value) returns (all: set<Path>)
    ensures |all| == Nodes(v)
    ensures forall p :: p in all <==> Leads(v, p)
    decreases v, 1
  {
    match v
    case Array(items) =>
      var inner := ItemsCounted(items, 0);
      all := {[]} + inner;
      assert [] !in inner;
      forall p ensures p in all <==> Leads(v, p) {
        assert p != [] ==> (p in inner <==> EntersItems(items, 0, p));
      }
    case Object(members) =>
      var inner := MembersCounted(members, 0);
      all := {[]} + inner;
      assert [] !in inner;
      forall p ensures p in all <==> Leads(v, p) {
        assert p != [] ==> (p in inner <==> EntersMembers(members, 0, p));
      }
    case _ =>
      all := {[]};
  }

  lemma EntersItemsLater(items: seq<Value>, k: nat, p: Path)
    requires items != []
    ensures EntersItems(items, k, p) <==>
      (p != [] && p[0] == k && Leads(items[0], p[1..])) || EntersItems(items[1..], k + 1, p)
  {
    hide Leads;
    if p != [] && k < p[0] < k + |items| {
      assert items[1..][p[0] - (k + 1)] == items[p[0] - k];
    }
  }

  /** The paths into a list whose first entry is numbered `k`. */
  lemma {:induction false} ItemsCounted(items: seq<Value>, k: nat) returns (all: set<Path>)
    ensures |all| == ItemNodes(items)
    ensures forall p :: p in all <==> EntersItems(items, k, p)
    decreases items, 0
  {
    if items == [] {
      all := {};
    } else {
      var here := NodesAreCounted(items[0]);
      var rest := ItemsCounted(items[1..], k + 1);
      all := Below(k, here) + rest;
      hide Leads, Below, Nodes;
      BelowSize(k, here);
      Apart(Below(k, here), rest, k);
      hide EntersItems;
      forall p ensures p in all <==> EntersItems(items, k, p) {
        EntersItemsLater(items, k, p);
      }
    }
  }

  lemma Apart(a: set<Path>, b: set<Path>, k: nat)
    requires (forall p | p in a :: p != [] && p[0] == k) && (forall p | p in b :: p != [] && p[0] > k)
    ensures |a + b| == |a| + |b|
  {
    assert a * b == {};
  }

  lemma EntersMembersLater(members: seq<Pair>, k: nat, p: Path)
    requires members != []
    ensures EntersMembers(members, k, p) <==>
      (p != [] && p[0] == k && Leads(members[0].value, p[1..])) || EntersMembers(members[1..], k + 1, p)
  {
    hide Leads;
    if p != [] && k < p[0] < k + |members| {
      assert members[1..][p[0] - (k + 1)] == members[p[0] - k];
    }
  }

  /** The paths into a list whose first entry is numbered `k`. */
  lemma {:induction false} MembersCounted(members: seq<Pair>, k: nat) returns (all: set<Path>)
    ensures |all| == MemberNodes(members)
    ensures forall p :: p in all <==> EntersMembers(members, k, p)
    decreases members, 0
  {
    if members == [] {
      all := {};
    } else {
      var here := NodesAreCounted(members[0].value);
      var rest := MembersCounted(members[1..], k + 1);
      all := Below(k, here) + rest;
      hide Leads, Below, Nodes;
      BelowSize(k, here);
      Apart(Below(k, here), rest, k);
      hide EntersMembers;
      forall p ensures p in all <==> EntersMembers(members, k, p) {
        EntersMembersLater(members, k, p);
      }
    }
  }

  // ----- bytes

  /** One character in UTF-8, section 3 of RFC 3629. */
  function Octets(c: char): seq<int> {
    var n := c as int;
    if n <= 0x7f then [n]
    else if n <= 0x7ff then [0xc0 + n / 0x40, 0x80 + n % 0x40]
    else if n <= 0xffff then [0xe0 + n / 0x1000, 0x80 + n / 0x40 % 0x40, 0x80 + n % 0x40]
    else [0xf0 + n / 0x4_0000, 0x80 + n / 0x1000 % 0x40, 0x80 + n / 0x40 % 0x40, 0x80 + n % 0x40]
  }

  function Encoded(t: string): seq<int> { if t == "" then [] else Octets(t[0]) + Encoded(t[1..]) }

  /** The bytes of a text are the octets of its encoded form. */
  lemma {:induction false} BytesAreEncoded(t: string)
    ensures Bytes(t) == |Encoded(t)|
  {
    if t != "" {
      BytesAreEncoded(t[1..]);
      assert ByteWidth(t[0]) == |Octets(t[0])|;
      hide Octets, ByteWidth;
    }
  }
}
