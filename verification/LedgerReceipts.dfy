/** What merging ledgers keeps: receipts and opaque evidence, over any grouping, order and
    repetition of merges; and the exact condition under which a receipt can be lost. */
module LedgerReceipts {
  import opened Sorting
  import opened Ledger

  // ----- reading a merged entry back

  predicate Plain(row: Row) { CONFLICTS !in row }

  /** A node that is kept as it is, however often it is merged. */
  predicate Settled(node: Json) { node.Dict? && !Readable(node) }

  predicate Leaf(node: Json) {
    node.Dict? && (Plain(node.fields) || !Readable(node))
  }

  function Rows(rows: seq<Row>): set<Row> { set r | r in rows }

  function Nodes(nodes: seq<Json>): set<Json> { set n | n in nodes }

  function Slots(attempts: Attempts): set<Row> { set k | k in attempts.rows :: attempts.rows[k] }

  lemma {:induction false} FlattenShape(pending: seq<Json>)
    ensures forall r | r in Flatten(pending).clean :: Plain(r)
    ensures forall m | m in Flatten(pending).malformed :: Settled(m)
    decreases Sizes(pending)
  {
    if pending != [] {
      FlattenShape(Rest(pending));
    }
  }

  /** Leaves are worked off one by one: attempts as they are, opaque nodes as they are. */
  lemma {:induction false} FlattenLeaves(nodes: seq<Json>)
    requires forall n | n in nodes :: Leaf(n)
    ensures forall r: Row :: r in Flatten(nodes).clean <==> Plain(r) && Dict(r) in nodes
    ensures forall m: Json :: m in Flatten(nodes).malformed <==> m in nodes && !(m.Dict? && Plain(m.fields))
    decreases |nodes|
  {
    if nodes != [] {
      var node, others := nodes[|nodes| - 1], nodes[..|nodes| - 1];
      assert nodes == others + [node] && node in nodes;
      FlattenLeaves(others);
      if Plain(node.fields) {
        assert Readable(node) && Bare(node.fields) == node.fields;
      }
      assert Rest(nodes) == others;
      assert Flatten(nodes) == Turn(node).Then(Flatten(others));
    }
  }

  lemma {:induction false} UniqueMembers(nodes: seq<Json>, n: Json)
    ensures n in Unique(nodes) <==> n in nodes
  {
    if nodes != [] {
      UniqueMembers(nodes[1..], n);
      UniqueMembers(nodes[1..], nodes[0]);
      assert nodes == [nodes[0]] + nodes[1..];
    }
  }

  /** The nested evidence of a merged entry: the rows below the primary one and the opaque nodes. */
  lemma EvidenceMembers(o: Order, rows: seq<Row>, malformed: seq<Json>, n: Json)
    ensures n in Evidence(o, rows, malformed) <==> n in malformed || (n.Dict? && n.fields in rows)
  {
    var all := AsDicts(rows) + malformed;
    UniqueMembers(all, n);
    SortMembers(Unique(all), (a, b) => o.place(a) <= o.place(b), n);
    if n.Dict? && n.fields in rows {
      var i :| 0 <= i < |rows| && rows[i] == n.fields;
      assert AsDicts(rows)[i] == n;
    }
  }

  /** A holder of nothing, which a later merge would read as an attempt without any field of one. */
  const MARK: Row := map[EVIDENCE := Bool(true)]

  lemma ReadBackNested(primary: Row, nested: seq<Json>)
    requires Plain(primary) && forall n | n in nested :: Leaf(n)
    ensures var f := Flatten([Dict(primary[CONFLICTS := List(nested)])]);
      && (forall m: Json :: m in f.malformed <==> m in nested && !(m.Dict? && Plain(m.fields)))
      && (forall r: Row :: r in f.clean <==> (r == primary && r != MARK) || (Plain(r) && Dict(r) in nested))
  {
    var entry := Dict(primary[CONFLICTS := List(nested)]);
    assert Readable(entry);
    assert Rest([entry]) == nested;
    var f := Flatten(nested);
    assert Flatten([entry]) == Turn(entry).Then(f);
    FlattenLeaves(nested);
    assert Bare(entry.fields) == primary;
    if ContainerOnly(entry.fields) {
      assert primary.Keys == {EVIDENCE};
      assert primary == MARK;
    }
  }

  lemma ReadBackAlone(primary: Row)
    requires Plain(primary)
    ensures Flatten([Dict(primary)]) == Flat([primary], [])
  {
    assert Readable(Dict(primary)) && Bare(primary) == primary;
    assert Rest([Dict(primary)]) == [];
  }

  /** The sorted attempts: each slot, as often as it is one, and the greatest last. */
  lemma SortedSlots(o: Order, attempts: Attempts)
    requires attempts.Valid()
    ensures var sorted := Sort(attempts.Values(), (a: Row, b: Row) => RowLe(o, a, b));
      && multiset(sorted) == multiset(attempts.Values())
      && (forall r: Row :: r in sorted <==> r in Slots(attempts))
      && forall r: Row | r in Slots(attempts) :: RowLe(o, r, sorted[|sorted| - 1])
  {
    var le := (a: Row, b: Row) => RowLe(o, a, b);
    var values := attempts.Values();
    RowLeOrders(o);
    SortKeeps(values, le);
    hide Sort, RowLe;
    forall r: Row ensures r in Sort(values, le) <==> r in Slots(attempts) {
      ValuesAreSlots(attempts, r);
      SortMembers(values, le, r);
    }
    var sorted := Sort(values, le);
    forall r: Row | r in Slots(attempts) ensures RowLe(o, r, sorted[|sorted| - 1]) {
      ValuesAreSlots(attempts, r);
      LastIsGreatest(values, le, r);
      assert le(r, sorted[|sorted| - 1]);
    }
  }

  /** The merged entry taken apart: its primary row, and the rows below it. */
  lemma EntryParts(o: Order, attempts: Attempts, malformed: seq<Json>) returns (primary: Row, rows: seq<Row>)
    requires attempts.Valid()
    ensures Entry(o, attempts, malformed) ==
      if rows == [] && malformed == [] then Dict(primary)
      else Dict(primary[CONFLICTS := List(Evidence(o, rows, malformed))])
    ensures forall r: Row | r in rows :: r in Slots(attempts)
    ensures forall r: Row | r in Slots(attempts) :: r == primary || r in rows
    ensures primary in Slots(attempts) || (primary == MARK && Slots(attempts) == {})
    ensures forall r: Row | r in Slots(attempts) :: RowLe(o, r, primary)
    ensures Slots(attempts) != {} ==> multiset(rows) + multiset{primary} == multiset(attempts.Values())
  {
    var sorted := Sort(attempts.Values(), (a: Row, b: Row) => RowLe(o, a, b));
    rows := if sorted == [] then [] else sorted[..|sorted| - 1];
    primary := if sorted == [] then MARK else sorted[|sorted| - 1];
    SortedSlots(o, attempts);
    hide Sort, RowLe, Slots, Evidence;
    if sorted != [] {
      LastApart(sorted);
    }
  }

  lemma LastApart(s: seq<Row>)
    requires s != []
    ensures var n := |s| - 1;
      && multiset(s[..n]) + multiset{s[n]} == multiset(s) && forall x: Row :: x in s <==> x in s[..n] || x == s[n]
  {
    var n := |s| - 1;
    assert s == s[..n] + [s[n]];
  }

  lemma RowLeOrders(o: Order)
    ensures TotalPreorder((a: Row, b: Row) => RowLe(o, a, b))
  {
  }

  /** Reading a merged entry back gives the merged attempts and the opaque evidence again; only the
      bare evidence mark may come or go, and `MarkReadBack` says when. */
  lemma ReadBack(o: Order, attempts: Attempts, malformed: seq<Json>)
    requires attempts.Valid()
    requires forall k | k in attempts.rows :: Plain(attempts.rows[k])
    requires forall m | m in malformed :: Settled(m)
    ensures var f := Flatten([Entry(o, attempts, malformed)]);
      && (forall m: Json :: m in f.malformed <==> m in malformed)
      && (forall r: Row :: r != MARK ==> (r in f.clean <==> r in Slots(attempts)))
  {
    hide Flatten, Evidence, Entry;
    var primary, rows := EntryParts(o, attempts, malformed);
    if rows == [] && malformed == [] {
      ReadBackAlone(primary);
    } else {
      var nested := Evidence(o, rows, malformed);
      forall n: Json ensures n in nested <==> n in malformed || (n.Dict? && n.fields in rows) {
        EvidenceMembers(o, rows, malformed, n);
      }
      assert forall n | n in nested :: Leaf(n);
      ReadBackNested(primary, nested);
      forall r: Row | r in rows ensures Dict(r) in nested {
        EvidenceMembers(o, rows, malformed, Dict(r));
      }
    }
  }

  lemma ValuesAreSlots(attempts: Attempts, r: Row)
    requires attempts.Valid()
    ensures r in attempts.Values() <==> r in Slots(attempts)
  {
    if r in Slots(attempts) {
      var k :| k in attempts.rows && attempts.rows[k] == r;
      var i :| 0 <= i < |attempts.order| && attempts.order[i] == k;
      assert attempts.Values()[i] == r;
    }
  }

  // ----- what can happen to a receipt

  /** A row that names a tweet id without having one. */
  predicate BlankId(row: Row) { TWEET in row && !HasTweet(row) }

  /** A row that claims confirmation without a receipt: it ranks as high as one. */
  predicate BareConfirmed(row: Row) { !HasTweet(row) && Rank(row) == 4 }

  datatype Feature = Receipt | Blank | Claim

  predicate Has(feature: Feature, row: Row) {
    match feature
    case Receipt => HasTweet(row)
    case Blank => BlankId(row)
    case Claim => BareConfirmed(row)
  }

  /** Every slot holds a row of its own identity, or a contradicting receipt under the row itself. */
  ghost predicate SlotsFit(attempts: Attempts) {
    forall k | k in attempts.rows ::
      var r := attempts.rows[k];
      Plain(r) && (k == Key(r) || (k == Dict(r) && HasTweet(r)))
  }

  /** Merging two observations of one attempt keeps its identity and invents none of the three features. */
  lemma OverlayKeeps(existing: Row, row: Row)
    requires Key(existing) == Key(row) && Plain(existing) && Plain(row)
    ensures var merged := Overlay(existing, row);
      && Key(merged) == Key(row) && Plain(merged)
      && (HasTweet(merged) ==> HasTweet(existing) || HasTweet(row))
      && (BlankId(merged) ==> BlankId(existing) || BlankId(row))
      && (BareConfirmed(merged) ==> BareConfirmed(existing) || BareConfirmed(row))
  {
    SameIdentity(existing, row);
    var merged := Overlay(existing, row);
    if Identified(row) {
      assert Get(merged, "intent_id") == Get(row, "intent_id");
      assert Get(merged, "at") == Get(row, "at");
      assert Get(merged, "content_revision") == Get(row, "content_revision");
      assert Get(merged, "text_sha256") == Get(row, "text_sha256");
      assert Get(merged, "evidence_sha256") == Get(row, "evidence_sha256");
      assert Get(merged, "text") == Get(row, "text");
    } else {
      assert merged == row;
    }
  }

  /** Two rows in one slot: both identified with equal identity fields, or one and the same row. */
  lemma SameIdentity(a: Row, b: Row)
    requires Key(a) == Key(b)
    ensures Identified(a) == Identified(b)
    ensures !Identified(a) ==> a == b
    ensures Identified(a) ==>
      && Get(a, "intent_id") == Get(b, "intent_id") && Get(a, "at") == Get(b, "at")
      && Get(a, "content_revision") == Get(b, "content_revision") && Get(a, "text_sha256") == Get(b, "text_sha256")
      && Get(a, "evidence_sha256") == Get(b, "evidence_sha256") && Get(a, "text") == Get(b, "text")
  {
    var x, y := Key(a).fields, Key(b).fields;
    if Identified(a) {
      assert "intent_id" in x && "intent_id" in y;
      assert x["intent_id"] == y["intent_id"] && x["at"] == y["at"] && x["content_revision"] == y["content_revision"];
      assert x["text_sha256"] == y["text_sha256"] && x["evidence_sha256"] == y["evidence_sha256"] && x["text"] == y["text"];
    } else {
      assert "unidentified_attempt" in x && "unidentified_attempt" in y;
      assert x["unidentified_attempt"] == y["unidentified_attempt"];
    }
  }

  /** A slot for a contradicting receipt is nobody's identity. */
  lemma AlternateIsNoIdentity(alternate: Row, row: Row)
    requires HasTweet(alternate)
    ensures Dict(alternate) != Key(row)
  {
    assert TWEET in alternate;
    assert TWEET !in Key(row).fields;
  }

  // ----- the bare evidence mark

  /** Different values have different places, as their fingerprints differ. */
  ghost predicate Strict(o: Order) { forall a, b :: o.place(a) == o.place(b) ==> a == b }

  /** No two slots hold the mark. */
  lemma MarkOnce(attempts: Attempts)
    requires attempts.Valid() && SlotsFit(attempts)
    ensures multiset(attempts.Values())[MARK] <= 1
  {
    var values := attempts.Values();
    forall i, j | 0 <= i < j < |values| ensures values[i] != MARK || values[j] != MARK {
      assert attempts.order[i] in attempts.order && attempts.order[j] in attempts.order;
      assert !HasTweet(MARK);
    }
    CountOnce(values, MARK);
  }

  lemma {:induction false} CountOnce(values: seq<Row>, x: Row)
    requires forall i, j | 0 <= i < j < |values| :: values[i] != x || values[j] != x
    ensures multiset(values)[x] <= 1
  {
    if values != [] {
      CountOnce(values[1..], x);
      assert values == [values[0]] + values[1..];
      if values[0] == x {
        assert x !in values[1..];
      }
    }
  }

  /** Exactly when a merged entry reads back with the bare mark as an attempt. With nothing else to hold it is
      all there is, so it stays, or comes, unless there is opaque evidence to hold; among other attempts
      it stays unless it is the greatest, which makes it the holder of the others. */
  lemma MarkReadBack(o: Order, attempts: Attempts, malformed: seq<Json>)
    requires Strict(o) && attempts.Valid() && SlotsFit(attempts)
    requires forall m | m in malformed :: Settled(m)
    ensures MARK in Flatten([Entry(o, attempts, malformed)]).clean <==>
      if Slots(attempts) <= {MARK} then malformed == []
      else MARK in Slots(attempts) && exists r | r in Slots(attempts) :: !RowLe(o, r, MARK)
  {
    var primary, rows := MarkParts(o, attempts, malformed);
    hide *;
    if rows == [] && malformed == [] {
      ReadBackAlone(primary);
    } else {
      MarkNested(o, primary, rows, malformed);
    }
  }

  /** The parts of the entry, as far as the mark is concerned. */
  lemma MarkParts(o: Order, attempts: Attempts, malformed: seq<Json>) returns (primary: Row, rows: seq<Row>)
    requires Strict(o) && attempts.Valid() && SlotsFit(attempts)
    ensures Entry(o, attempts, malformed) ==
      if rows == [] && malformed == [] then Dict(primary)
      else Dict(primary[CONFLICTS := List(Evidence(o, rows, malformed))])
    ensures Plain(primary) && forall r | r in rows :: Plain(r)
    ensures if Slots(attempts) <= {MARK} then primary == MARK && rows == []
            else rows != [] || primary != MARK
    ensures !(Slots(attempts) <= {MARK}) ==>
              (MARK in rows <==> MARK in Slots(attempts) && exists r | r in Slots(attempts) :: !RowLe(o, r, MARK))
  {
    primary, rows := EntryParts(o, attempts, malformed);
    assert Plain(MARK);
    MarkOnce(attempts);
    if Slots(attempts) != {} {
      MarkBelow(attempts, primary, rows);
    }
    PrimaryIsMark(o, attempts, primary);
    if rows != [] {
      assert rows[0] in rows;
    }
    hide Flatten, Evidence, Entry, RowLe, Strict;
  }

  lemma MarkNested(o: Order, primary: Row, rows: seq<Row>, malformed: seq<Json>)
    requires Plain(primary) && (forall r | r in rows :: Plain(r)) && forall m | m in malformed :: Settled(m)
    ensures MARK in Flatten([Dict(primary[CONFLICTS := List(Evidence(o, rows, malformed))])]).clean <==> MARK in rows
  {
    assert Plain(MARK) && Readable(Dict(MARK));
    var nested := Evidence(o, rows, malformed);
    forall n: Json ensures n in nested <==> n in malformed || (n.Dict? && n.fields in rows) {
      EvidenceMembers(o, rows, malformed, n);
    }
    hide Flatten, Evidence;
    assert forall n | n in nested :: Leaf(n);
    ReadBackNested(primary, nested);
  }

  lemma MarkBelow(attempts: Attempts, primary: Row, rows: seq<Row>)
    requires attempts.Valid() && multiset(attempts.Values())[MARK] <= 1
    requires multiset(rows) + multiset{primary} == multiset(attempts.Values())
    ensures primary == MARK ==> MARK !in rows
    ensures forall r: Row :: r in Slots(attempts) <==> r == primary || r in rows
  {
    if primary == MARK {
      assert (multiset(rows) + multiset{primary})[MARK] == multiset(rows)[MARK] + 1;
      assert MARK in rows ==> MARK in multiset(rows);
    }
    forall r: Row ensures r in Slots(attempts) <==> r == primary || r in rows {
      ValuesAreSlots(attempts, r);
      assert r in attempts.Values() <==> r in multiset(attempts.Values());
      assert r in rows <==> r in multiset(rows);
    }
  }

  /** The mark is the primary row exactly when no slot is above it. */
  lemma PrimaryIsMark(o: Order, attempts: Attempts, primary: Row)
    requires Strict(o) && (primary in Slots(attempts) || (primary == MARK && Slots(attempts) == {}))
    requires forall r: Row | r in Slots(attempts) :: RowLe(o, r, primary)
    ensures MARK in Slots(attempts) ==> (primary == MARK <==> forall r | r in Slots(attempts) :: RowLe(o, r, MARK))
  {
    if MARK in Slots(attempts) && RowLe(o, primary, MARK) {
      assert RowLe(o, MARK, primary);
      assert o.place(Dict(primary)) == o.place(Dict(MARK));
      assert Dict(primary) == Dict(MARK);
    }
  }

  lemma RecordFits(attempts: Attempts, row: Row)
    requires SlotsFit(attempts) && Plain(row)
    ensures SlotsFit(Record(attempts, row))
  {
    var key := Key(row);
    if key in attempts.rows {
      OwnSlot(attempts, row);
      OverlayKeeps(attempts.rows[key], row);
    }
  }

  /** The slot a row would go to holds a row of the same identity. */
  lemma OwnSlot(attempts: Attempts, row: Row)
    requires SlotsFit(attempts) && Key(row) in attempts.rows
    ensures Key(attempts.rows[Key(row)]) == Key(row) && Plain(attempts.rows[Key(row)])
  {
    var existing := attempts.rows[Key(row)];
    if HasTweet(existing) {
      AlternateIsNoIdentity(existing, row);
    }
  }

  // ----- receipts

  /** The receipts of some rows: which attempt has which tweet. */
  function Receipts(rows: set<Row>): set<(Json, Json)> {
    set r | r in rows && HasTweet(r) :: (Key(r), Get(r, TWEET))
  }

  lemma ReceiptOf(rows: set<Row>, r: Row)
    requires r in rows && HasTweet(r)
    ensures (Key(r), Get(r, TWEET)) in Receipts(rows)
  {
  }

  lemma ReceiptsUnion(a: set<Row>, b: set<Row>)
    ensures Receipts(a + b) == Receipts(a) + Receipts(b)
  {
    forall p ensures p in Receipts(a + b) <==> p in Receipts(a) + Receipts(b) {
      if p in Receipts(a) {
        var r :| r in a && HasTweet(r) && p == (Key(r), Get(r, TWEET));
        assert r in a + b;
      }
      if p in Receipts(b) {
        var r :| r in b && HasTweet(r) && p == (Key(r), Get(r, TWEET));
        assert r in a + b;
      }
    }
  }

  /** The one situation in which recording a row wipes out a receipt: the row claims confirmation, so
      it wins the tie against the receipt, and its own tweet id is explicitly blank. */
  predicate Blanks(attempts: Attempts, row: Row) {
    && Key(row) in attempts.rows && HasTweet(attempts.rows[Key(row)])
    && BlankId(row) && BareConfirmed(row)
  }

  /** The merged row of one slot carries every receipt of its two parts, unless the later one blanks it. */
  lemma OverlayReceipts(existing: Row, row: Row)
    requires Key(existing) == Key(row) && Plain(existing) && Plain(row)
    requires !(HasTweet(existing) && HasTweet(row) && Get(existing, TWEET) != Get(row, TWEET))
    ensures var merged := Overlay(existing, row);
      && Receipts({merged}) <= Receipts({existing}) + Receipts({row})
      && (HasTweet(existing) && BlankId(row) && BareConfirmed(row) ==> Receipts({merged}) == {})
      && (!(HasTweet(existing) && BlankId(row) && BareConfirmed(row)) ==>
            Receipts({merged}) == Receipts({existing}) + Receipts({row}))
  {
    var merged := Overlay(existing, row);
    OverlayKeeps(existing, row);
    if HasTweet(merged) {
      assert Receipts({merged}) == {(Key(row), Get(merged, TWEET))};
    }
    if HasTweet(existing) {
      assert Receipts({existing}) == {(Key(row), Get(existing, TWEET))};
    }
    if HasTweet(row) {
      assert Receipts({row}) == {(Key(row), Get(row, TWEET))};
    }
  }

  /** The slots after recording a row. */
  lemma RecordSlots(attempts: Attempts, row: Row) returns (others: set<Row>, existing: set<Row>, added: Row)
    requires SlotsFit(attempts) && Plain(row)
    ensures Slots(attempts) == others + existing
    ensures Slots(Record(attempts, row)) == others + {added}
    ensures existing == {} ==> added == row
    ensures existing != {} ==>
      && Key(row) in attempts.rows && existing == {attempts.rows[Key(row)]}
      && added == Overlay(attempts.rows[Key(row)], row)
      && !(HasTweet(attempts.rows[Key(row)]) && HasTweet(row) && Get(attempts.rows[Key(row)], TWEET) != Get(row, TWEET))
      && others == set k | k in attempts.rows && k != Key(row) :: attempts.rows[k]
    ensures Key(row) in attempts.rows && !(HasTweet(attempts.rows[Key(row)]) && HasTweet(row)) ==> existing != {}
  {
    var key := Key(row);
    var after := Record(attempts, row);
    if key !in attempts.rows {
      others, existing, added := Slots(attempts), {}, row;
      SetSlots(attempts, key, row);
    } else {
      var e := attempts.rows[key];
      if HasTweet(e) && HasTweet(row) && Get(e, TWEET) != Get(row, TWEET) {
        others, existing, added := Slots(attempts), {}, row;
        var k := Dict(row);
        if k in attempts.rows {
          AlternateIsNoIdentity(row, attempts.rows[k]);
          assert attempts.rows[k] == row;
        }
        SetSlots(attempts, k, row);
      } else {
        others, existing, added := set k | k in attempts.rows && k != key :: attempts.rows[k], {e}, Overlay(e, row);
        SetSlots(attempts, key, added);
      }
    }
  }

  lemma SetSlots(attempts: Attempts, key: Json, row: Row)
    ensures Slots(attempts.Set(key, row)) == (set k | k in attempts.rows && k != key :: attempts.rows[k]) + {row}
    ensures key in attempts.rows ==>
      Slots(attempts) == (set k | k in attempts.rows && k != key :: attempts.rows[k]) + {attempts.rows[key]}
    ensures key !in attempts.rows ==> Slots(attempts) == set k | k in attempts.rows && k != key :: attempts.rows[k]
  {
    var after := attempts.Set(key, row);
    assert after.rows[key] == row;
    forall k | k in attempts.rows && k != key ensures attempts.rows[k] in Slots(after) {
      assert after.rows[k] == attempts.rows[k];
    }
  }

  /** One step of the merge: no receipt is invented, and none is lost unless the row blanks one. */
  lemma RecordReceipts(attempts: Attempts, row: Row)
    requires SlotsFit(attempts) && Plain(row)
    ensures Receipts(Slots(Record(attempts, row))) <= Receipts(Slots(attempts)) + Receipts({row})
    ensures !Blanks(attempts, row) ==> Receipts(Slots(Record(attempts, row))) == Receipts(Slots(attempts)) + Receipts({row})
  {
    hide Record, Overlay, Slots, Receipts, Key;
    var others, existing, added := RecordSlots(attempts, row);
    ReceiptsUnion(others, existing);
    ReceiptsUnion(others, {added});
    if existing == {} {
      assert others + existing == others;
    } else {
      OwnSlot(attempts, row);
      OverlayReceipts(attempts.rows[Key(row)], row);
    }
  }

  /** Another slot than the attempt's own holds this receipt of it. */
  ghost predicate HeldBeside(attempts: Attempts, key: Json, tweet: Json) {
    exists k | k in attempts.rows && k != key ::
      HasTweet(attempts.rows[k]) && (Key(attempts.rows[k]), Get(attempts.rows[k], TWEET)) == (key, tweet)
  }

  lemma HeldBesideIsReceipt(attempts: Attempts, key: Json, tweet: Json)
    ensures HeldBeside(attempts, key, tweet)
      <==> (key, tweet) in Receipts(set k | k in attempts.rows && k != key :: attempts.rows[k])
  {
    var others := set k | k in attempts.rows && k != key :: attempts.rows[k];
    if (key, tweet) in Receipts(others) {
      var r :| r in others && HasTweet(r) && (key, tweet) == (Key(r), Get(r, TWEET));
      var k :| k in attempts.rows && k != key && attempts.rows[k] == r;
    }
    if HeldBeside(attempts, key, tweet) {
      var k :| k in attempts.rows && k != key
        && HasTweet(attempts.rows[k]) && (Key(attempts.rows[k]), Get(attempts.rows[k], TWEET)) == (key, tweet);
      assert attempts.rows[k] in others;
      ReceiptOf(others, attempts.rows[k]);
    }
  }

  /** The exact condition for one step: the receipt that a row blanks is lost, unless another slot
      holds the same receipt. */
  lemma RecordLosesExactly(attempts: Attempts, row: Row)
    requires SlotsFit(attempts) && Plain(row)
    ensures Receipts(Slots(Record(attempts, row))) == Receipts(Slots(attempts)) + Receipts({row})
      <==> !Blanks(attempts, row) || HeldBeside(attempts, Key(row), Get(attempts.rows[Key(row)], TWEET))
  {
    hide Record, Overlay, Key, Slots, HeldBeside;
    RecordReceipts(attempts, row);
    if Blanks(attempts, row) {
      var e := attempts.rows[Key(row)];
      var lost := (Key(row), Get(e, TWEET));
      var others, existing, added := RecordSlots(attempts, row);
      OwnSlot(attempts, row);
      OverlayReceipts(e, row);
      assert Receipts({row}) == {};
      ReceiptOf({e}, e);
      assert Receipts(existing) == {lost} by {
        assert existing == {e} && HasTweet(e);
      }
      HeldBesideIsReceipt(attempts, Key(row), Get(e, TWEET));
      hide Receipts;
      ReceiptsUnion(others, {added});
      ReceiptsUnion(others, existing);
    }
  }
}
