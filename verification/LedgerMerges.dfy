/** Whole histories of merges: what any order, grouping and repetition keeps of one event. */
module LedgerMerges {
  import opened Common
  import opened Sorting
  import opened Ledger
  import opened LedgerReceipts

  /** Every feature of a row of `a` is one of a row of `b` in the same slot. */
  ghost predicate Covered(a: set<Row>, b: set<Row>) {
    forall r, feature | r in a && Has(feature, r) :: exists s | s in b :: Key(s) == Key(r) && Has(feature, s)
  }

  /** No attempt has at once a receipt, a row with an explicitly blank tweet id, and a row that
      claims confirmation without a receipt. */
  ghost predicate Safe(rows: set<Row>) {
    forall r, b, c | r in rows && b in rows && c in rows && Key(r) == Key(b) == Key(c) ::
      !(HasTweet(r) && BlankId(b) && BareConfirmed(c))
  }

  lemma Inherited(a: set<Row>, b: set<Row>, r: Row, feature: Feature)
    requires Covered(a, b) && r in a
    ensures Has(feature, r) ==> exists s | s in b :: Key(s) == Key(r) && Has(feature, s)
  {
  }

  lemma CoveredSafe(a: set<Row>, b: set<Row>)
    requires Covered(a, b) && Safe(b)
    ensures Safe(a)
  {
    forall r, k, c | r in a && k in a && c in a && Key(r) == Key(k) == Key(c)
      ensures !(HasTweet(r) && BlankId(k) && BareConfirmed(c))
    {
      Inherited(a, b, r, Receipt);
      Inherited(a, b, k, Blank);
      Inherited(a, b, c, Claim);
      hide Key;
    }
  }

  lemma CoveredTransitive(a: set<Row>, b: set<Row>, c: set<Row>)
    requires Covered(a, b) && Covered(b, c)
    ensures Covered(a, c)
  {
    forall r, feature | r in a && Has(feature, r)
      ensures exists s | s in c :: Key(s) == Key(r) && Has(feature, s)
    {
      var s :| s in b && Key(s) == Key(r) && Has(feature, s);
    }
  }

  lemma SubsetCovered(a: set<Row>, b: set<Row>)
    requires forall r | r in a && r != MARK :: r in b
    ensures Covered(a, b)
  {
    MarkHasNothing();
  }

  lemma MarkHasNothing()
    ensures forall feature :: !Has(feature, MARK)
  {
  }

  lemma CoveredUnion(a: set<Row>, b: set<Row>, more: set<Row>)
    requires Covered(a, b)
    ensures Covered(a + more, b + more)
  {
    forall r, feature | r in a + more && Has(feature, r)
      ensures exists s | s in b + more :: Key(s) == Key(r) && Has(feature, s)
    {
      if r in a {
        var s :| s in b && Key(s) == Key(r) && Has(feature, s);
        assert s in b + more;
      }
    }
  }

  /** Recording a row brings no feature that the slots or the row did not have. */
  lemma RecordCovered(attempts: Attempts, row: Row)
    requires SlotsFit(attempts) && Plain(row)
    ensures Covered(Slots(Record(attempts, row)), Slots(attempts) + {row})
  {
    hide Record, Overlay, Slots, Key;
    var others, existing, added := RecordSlots(attempts, row);
    if existing != {} {
      OwnSlot(attempts, row);
      var e := attempts.rows[Key(row)];
      OverlayKeeps(e, row);
      assert e in existing;
      forall r, feature | r in others + {added} && Has(feature, r)
        ensures exists s | s in Slots(attempts) + {row} :: Key(s) == Key(r) && Has(feature, s)
      {
        if r !in others {
          assert Has(feature, e) || Has(feature, row);
          assert Key(e) == Key(r) && Key(row) == Key(r);
        }
      }
    }
  }

  /** A receipt can be blanked only where the three features meet. */
  lemma SafeNeverBlanks(attempts: Attempts, row: Row)
    requires SlotsFit(attempts) && Plain(row) && Safe(Slots(attempts) + {row})
    ensures !Blanks(attempts, row)
  {
    if Key(row) in attempts.rows {
      OwnSlot(attempts, row);
      assert attempts.rows[Key(row)] in Slots(attempts) + {row} && row in Slots(attempts) + {row};
    }
  }

  lemma {:induction false} RecordAllFits(attempts: Attempts, rows: seq<Row>)
    requires SlotsFit(attempts) && forall r | r in rows :: Plain(r)
    ensures SlotsFit(RecordAll(attempts, rows))
    decreases |rows|
  {
    if rows != [] {
      RecordFits(attempts, rows[0]);
      RecordAllFits(Record(attempts, rows[0]), rows[1..]);
    }
  }

  lemma RowsStep(attempts: set<Row>, rows: seq<Row>)
    requires rows != []
    ensures attempts + Rows(rows) == attempts + {rows[0]} + Rows(rows[1..])
    ensures Rows(rows) == {rows[0]} + Rows(rows[1..])
  {
    assert rows == [rows[0]] + rows[1..];
  }

  lemma {:induction false} RecordAllCovered(attempts: Attempts, rows: seq<Row>)
    requires SlotsFit(attempts) && forall r | r in rows :: Plain(r)
    ensures Covered(Slots(RecordAll(attempts, rows)), Slots(attempts) + Rows(rows))
    decreases |rows|
  {
    hide Record, Slots, Key;
    if rows == [] {
      SubsetCovered(Slots(attempts), Slots(attempts) + Rows(rows));
    } else {
      var next := Record(attempts, rows[0]);
      RecordFits(attempts, rows[0]);
      RecordCovered(attempts, rows[0]);
      RecordAllCovered(next, rows[1..]);
      RowsStep(Slots(attempts), rows);
      hide Covered, Rows;
      CoveredUnion(Slots(next), Slots(attempts) + {rows[0]}, Rows(rows[1..]));
      CoveredTransitive(Slots(RecordAll(next, rows[1..])), Slots(next) + Rows(rows[1..]), Slots(attempts) + Rows(rows));
    }
  }

  lemma SafeSubset(a: set<Row>, b: set<Row>)
    requires a <= b && Safe(b)
    ensures Safe(a)
  {
  }

  /** Recording safe rows one after the other collects exactly their receipts. */
  lemma {:induction false} RecordAllReceipts(attempts: Attempts, rows: seq<Row>)
    requires SlotsFit(attempts) && forall r | r in rows :: Plain(r)
    requires Safe(Slots(attempts) + Rows(rows))
    ensures Receipts(Slots(RecordAll(attempts, rows))) == Receipts(Slots(attempts)) + Receipts(Rows(rows))
    decreases |rows|
  {
    hide Record, Slots, Key;
    if rows == [] {
      assert Receipts(Rows(rows)) == {};
    } else {
      var row, rest := rows[0], rows[1..];
      var next := Record(attempts, row);
      RecordFits(attempts, row);
      RecordCovered(attempts, row);
      RowsStep(Slots(attempts), rows);
      assert forall r | r in rest :: Plain(r);
      hide Covered, Rows, Safe, Receipts;
      CoveredUnion(Slots(next), Slots(attempts) + {row}, Rows(rest));
      CoveredSafe(Slots(next) + Rows(rest), Slots(attempts) + Rows(rows));
      RecordAllReceipts(next, rest);
      SafeSubset(Slots(attempts) + {row}, Slots(attempts) + Rows(rows));
      SafeNeverBlanks(attempts, row);
      RecordReceipts(attempts, row);
      ReceiptsUnion({row}, Rows(rest));
    }
  }

  // ----- histories

  /** How a value came about: read from one snapshot, or merged from two earlier values. A value may
      be used any number of times. `None` is a ledger without the event. */
  datatype History = Snapshot(entry: Option<Json>) | Merge(left: History, right: History)

  function Joined(o: Order, h: History): Option<Json> {
    match h
    case Snapshot(entry) => entry
    case Merge(left, right) =>
      var base, nxt := Joined(o, left), Joined(o, right);
      if base.None? && nxt.None? then None else Some(MergeEvent(o, base, nxt))
  }

  /** The attempts of all snapshots of a history. */
  function Inputs(h: History): set<Row> {
    match h
    case Snapshot(entry) => Rows(FlatOf(entry).clean)
    case Merge(left, right) => Inputs(left) + Inputs(right)
  }

  /** The opaque evidence of all snapshots of a history. */
  function OpaqueInputs(h: History): set<Json> {
    match h
    case Snapshot(entry) => Nodes(FlatOf(entry).malformed)
    case Merge(left, right) => OpaqueInputs(left) + OpaqueInputs(right)
  }

  lemma FlatShape(entry: Option<Json>)
    ensures forall r | r in FlatOf(entry).clean :: Plain(r)
    ensures forall m | m in FlatOf(entry).malformed :: Settled(m)
  {
    if entry.Some? {
      FlattenShape([entry.value]);
    }
  }

  /** The slots of one merge, and its opaque nodes, read back. */
  lemma MergeReadsBack(o: Order, base: Option<Json>, nxt: Option<Json>)
    ensures var merged := FlatOf(Some(MergeEvent(o, base, nxt)));
      var flat := FlatOf(base).Then(FlatOf(nxt));
      && (forall m: Json :: m in merged.malformed <==> m in flat.malformed)
      && (forall r: Row :: r != MARK ==> (r in merged.clean <==> r in Slots(RecordAll(NO_ATTEMPTS, flat.clean))))
      && (forall r | r in flat.clean :: Plain(r))
  {
    FlatShape(base);
    FlatShape(nxt);
    var flat := FlatOf(base).Then(FlatOf(nxt));
    var attempts := RecordAll(NO_ATTEMPTS, flat.clean);
    RecordAllValid(NO_ATTEMPTS, flat.clean);
    RecordAllFits(NO_ATTEMPTS, flat.clean);
    hide Flatten, RecordAll, Entry, Key;
    ReadBack(o, attempts, flat.malformed);
  }

  /** One merge of two entries: the opaque evidence of both, no new feature, and for safe rows the
      receipts of both. */
  lemma MergeOnce(o: Order, base: Option<Json>, nxt: Option<Json>)
    ensures var merged := FlatOf(Some(MergeEvent(o, base, nxt)));
      var rows := Rows(FlatOf(base).clean) + Rows(FlatOf(nxt).clean);
      && Nodes(merged.malformed) == Nodes(FlatOf(base).malformed) + Nodes(FlatOf(nxt).malformed)
      && Covered(Rows(merged.clean), rows)
      && (Safe(rows) ==> Receipts(Rows(merged.clean)) == Receipts(rows))
  {
    MergeReadsBack(o, base, nxt);
    var flat := FlatOf(base).Then(FlatOf(nxt));
    var merged := FlatOf(Some(MergeEvent(o, base, nxt)));
    var slots := Slots(RecordAll(NO_ATTEMPTS, flat.clean));
    var rows := Rows(FlatOf(base).clean) + Rows(FlatOf(nxt).clean);
    hide Flatten, MergeEvent, RecordAll, Key, FlatOf;
    assert Rows(flat.clean) == rows;
    assert Slots(NO_ATTEMPTS) + rows == rows;
    RecordAllCovered(NO_ATTEMPTS, flat.clean);
    SubsetCovered(Rows(merged.clean), slots);
    CoveredTransitive(Rows(merged.clean), slots, rows);
    SameButMark(Rows(merged.clean), slots);
    if Safe(rows) {
      RecordAllReceipts(NO_ATTEMPTS, flat.clean);
      assert Receipts(Slots(NO_ATTEMPTS)) == {};
    }
  }

  /** The mark has no identity, so nothing else is ever merged into its slot or becomes it. */
  lemma {:induction false} MarkRecorded(attempts: Attempts, rows: seq<Row>)
    requires SlotsFit(attempts) && forall r | r in rows :: Plain(r)
    ensures MARK in Slots(RecordAll(attempts, rows)) <==> MARK in Slots(attempts) + Rows(rows)
    ensures Slots(RecordAll(attempts, rows)) <= {MARK} <==> Slots(attempts) + Rows(rows) <= {MARK}
    decreases |rows|
  {
    hide Record, Slots, Key;
    if rows == [] {
      assert Slots(attempts) + Rows(rows) == Slots(attempts);
    } else {
      RecordFits(attempts, rows[0]);
      RowsStep(Slots(attempts), rows);
      MarkOnlyItself(attempts, rows[0]);
      assert forall r | r in rows[1..] :: Plain(r);
      hide SlotsFit, Plain, Rows, RecordAll;
      RecordAllFirst(attempts, rows);
      MarkRecorded(Record(attempts, rows[0]), rows[1..]);
    }
  }

  lemma RecordAllFirst(attempts: Attempts, rows: seq<Row>)
    requires rows != []
    ensures RecordAll(attempts, rows) == RecordAll(Record(attempts, rows[0]), rows[1..])
  {
    hide Record;
  }

  lemma MarkOnlyItself(attempts: Attempts, row: Row)
    requires SlotsFit(attempts) && Plain(row)
    ensures MARK in Slots(Record(attempts, row)) <==> MARK in Slots(attempts) + {row}
    ensures Slots(Record(attempts, row)) <= {MARK} <==> Slots(attempts) + {row} <= {MARK}
  {
    var others, existing, added := RecordSlots(attempts, row);
    if existing != {} {
      OwnSlot(attempts, row);
      OverlayMark(attempts.rows[Key(row)], row);
    }
    hide Record, Overlay, Slots, Key;
  }

  lemma OverlayMark(existing: Row, row: Row)
    requires Key(existing) == Key(row) && Plain(existing) && Plain(row)
    ensures (existing == MARK <==> row == MARK) && (Overlay(existing, row) == MARK <==> row == MARK)
  {
    SameIdentity(existing, row);
    OverlayKeeps(existing, row);
    SameIdentity(Overlay(existing, row), row);
    assert !Identified(MARK);
    hide Key;
  }

  /** Exactly when the bare mark is an attempt of a merge: it comes out of nothing at all, and it goes into
      opaque evidence or under attempts that all stand below it. */
  lemma MarkComesAndGoes(o: Order, base: Option<Json>, nxt: Option<Json>)
    requires Strict(o)
    ensures var flat := FlatOf(base).Then(FlatOf(nxt));
      MARK in FlatOf(Some(MergeEvent(o, base, nxt))).clean <==>
        if Rows(flat.clean) <= {MARK} then flat.malformed == []
        else MARK in flat.clean && exists r | r in Slots(RecordAll(NO_ATTEMPTS, flat.clean)) :: !RowLe(o, r, MARK)
  {
    FlatShape(base);
    FlatShape(nxt);
    var flat := FlatOf(base).Then(FlatOf(nxt));
    RecordAllValid(NO_ATTEMPTS, flat.clean);
    RecordAllFits(NO_ATTEMPTS, flat.clean);
    assert Slots(NO_ATTEMPTS) + Rows(flat.clean) == Rows(flat.clean);
    hide Flatten, RecordAll, Entry, Key, RowLe, Strict;
    MarkRecorded(NO_ATTEMPTS, flat.clean);
    MarkReadBack(o, RecordAll(NO_ATTEMPTS, flat.clean), flat.malformed);
  }

  /** A holder of evidence that holds none. */
  const HOLDER: Json := Dict(map[EVIDENCE := Bool(true), CONFLICTS := List([])])

  lemma HolderIsNoAttempt()
    ensures Flatten([HOLDER]) == Flat([], [])
  {
    assert EVIDENCE[0] == 'p' && CONFLICTS[0] == 'a';
    assert Readable(HOLDER) && ContainerOnly(HOLDER.fields);
    assert Rest([HOLDER]) == [];
    assert Flatten([HOLDER]) == Turn(HOLDER).Then(Flatten([]));
  }

  lemma NothingRecorded(o: Order)
    ensures NO_ATTEMPTS.Valid() && Entry(o, NO_ATTEMPTS, []) == Dict(MARK)
  {
    assert NO_ATTEMPTS.Values() == [];
  }

  lemma MarkIsAttempt()
    ensures Flatten([Dict(MARK)]) == Flat([MARK], [])
  {
    assert Plain(MARK);
    hide Flatten;
    ReadBackAlone(MARK);
  }

  /** The input that shows it: an entry without any attempt, merged with nothing, becomes one with an attempt. */
  lemma EmptyHolderBecomesMark(o: Order)
    ensures FlatOf(Some(HOLDER)) == Flat([], [])
    ensures MergeEvent(o, Some(HOLDER), None) == Dict(MARK)
    ensures FlatOf(Some(MergeEvent(o, Some(HOLDER), None))) == Flat([MARK], [])
  {
    hide Flatten, Entry;
    HolderIsNoAttempt();
    NothingRecorded(o);
    MarkIsAttempt();
  }

  lemma SameButMark(a: set<Row>, b: set<Row>)
    requires forall r | r != MARK :: r in a <==> r in b
    ensures Receipts(a) == Receipts(b)
  {
    MarkHasNothing();
    assert !HasTweet(MARK);
  }

  lemma {:induction false} HistoryCovered(o: Order, h: History)
    ensures Covered(Rows(FlatOf(Joined(o, h)).clean), Inputs(h))
  {
    match h
    case Snapshot(entry) =>
      SubsetCovered(Inputs(h), Inputs(h));
    case Merge(left, right) =>
      HistoryCovered(o, left);
      HistoryCovered(o, right);
      var base, nxt := Joined(o, left), Joined(o, right);
      var a, b := Rows(FlatOf(base).clean), Rows(FlatOf(nxt).clean);
      hide Flatten, MergeEvent;
      if base.None? && nxt.None? {
        SubsetCovered({}, Inputs(h));
      } else {
        MergeOnce(o, base, nxt);
        hide Covered, Rows;
        BothCovered(a, Inputs(left), b, Inputs(right));
        CoveredTransitive(Rows(FlatOf(Joined(o, h)).clean), a + b, Inputs(h));
      }
  }

  lemma BothCovered(a: set<Row>, x: set<Row>, b: set<Row>, y: set<Row>)
    requires Covered(a, x) && Covered(b, y)
    ensures Covered(a + b, x + y)
  {
    CoveredUnion(a, x, b);
    CoveredUnion(b, y, x);
    assert x + b == b + x && x + y == y + x;
    CoveredTransitive(a + b, x + b, x + y);
  }

  /** MAIN RESULT. If no attempt of the snapshots brings the three dangerous features together, then
      after any merges of them, in any order, grouping and number, the entry holds exactly the
      receipts of the snapshots. */
  lemma {:induction false} ReceiptsJoin(o: Order, h: History)
    requires Safe(Inputs(h))
    ensures Receipts(Rows(FlatOf(Joined(o, h)).clean)) == Receipts(Inputs(h))
  {
    match h
    case Snapshot(entry) =>
    case Merge(left, right) =>
      SafeSubset(Inputs(left), Inputs(h));
      SafeSubset(Inputs(right), Inputs(h));
      ReceiptsJoin(o, left);
      ReceiptsJoin(o, right);
      ReceiptsUnion(Inputs(left), Inputs(right));
      HistoryCovered(o, left);
      HistoryCovered(o, right);
      var base, nxt := Joined(o, left), Joined(o, right);
      var a, b := Rows(FlatOf(base).clean), Rows(FlatOf(nxt).clean);
      hide Flatten, MergeEvent;
      ReceiptsUnion(a, b);
      if base.Some? || nxt.Some? {
        MergeOnce(o, base, nxt);
        hide Covered, Rows, Safe, Receipts;
        BothCovered(a, Inputs(left), b, Inputs(right));
        CoveredSafe(a + b, Inputs(h));
      }
  }

  /** MAIN RESULT. Opaque evidence is conserved whatever is merged: its set is exactly the union of
      the snapshots' opaque evidence, and none of it ever becomes an attempt. */
  lemma {:induction false} OpaqueJoin(o: Order, h: History)
    ensures Nodes(FlatOf(Joined(o, h)).malformed) == OpaqueInputs(h)
    ensures forall r | r in FlatOf(Joined(o, h)).clean :: Dict(r) !in OpaqueInputs(h)
  {
    FlatShape(Joined(o, h));
    match h
    case Snapshot(entry) =>
    case Merge(left, right) =>
      OpaqueJoin(o, left);
      OpaqueJoin(o, right);
      var base, nxt := Joined(o, left), Joined(o, right);
      if base.Some? || nxt.Some? {
        MergeOnce(o, base, nxt);
      }
  }

  lemma NestedKeepsTweet(primary: Row, nested: Json)
    ensures HasTweet(primary[CONFLICTS := nested]) == HasTweet(primary)
  {
    assert CONFLICTS[0] != TWEET[0];
  }

  lemma GreatestHasTweet(o: Order, r: Row, primary: Row)
    requires RowLe(o, r, primary) && HasTweet(r)
    ensures HasTweet(primary)
  {
  }

  lemma EntryReceipt(o: Order, attempts: Attempts, malformed: seq<Json>)
    requires attempts.Valid()
    ensures var entry := Entry(o, attempts, malformed);
      entry.Dict? && (HasTweet(entry.fields) <==> exists r | r in Slots(attempts) :: HasTweet(r))
  {
    hide *;
    var primary, rows := EntryParts(o, attempts, malformed);
    NestedKeepsTweet(primary, List(Evidence(o, rows, malformed)));
    MarkHasNoTweet();
    forall r | r in Slots(attempts) && HasTweet(r) ensures HasTweet(primary) {
      GreatestHasTweet(o, r, primary);
    }
  }

  lemma MarkHasNoTweet()
    ensures !HasTweet(MARK)
  {
  }

  /** The primary row of a merged entry carries a receipt exactly when any of its attempts does. */
  lemma PrimaryCarriesReceipt(o: Order, base: Option<Json>, nxt: Option<Json>)
    ensures var merged := MergeEvent(o, base, nxt);
      && merged.Dict?
      && (HasTweet(merged.fields) <==> exists r | r in FlatOf(Some(merged)).clean :: HasTweet(r))
  {
    MergeReadsBack(o, base, nxt);
    var flat := FlatOf(base).Then(FlatOf(nxt));
    var attempts := RecordAll(NO_ATTEMPTS, flat.clean);
    RecordAllValid(NO_ATTEMPTS, flat.clean);
    var merged := MergeEvent(o, base, nxt);
    assert merged == Entry(o, attempts, flat.malformed);
    EntryReceipt(o, attempts, flat.malformed);
    hide *;
    MarkHasNoTweet();
  }

  // ----- the condition is exact

  lemma OneSlot(o: Order, key: Json, row: Row)
    ensures var attempts := Attempts([key], map[key := row]);
      attempts.Valid() && Entry(o, attempts, []) == Dict(row)
  {
    var attempts := Attempts([key], map[key := row]);
    assert attempts.Values() == [row];
    assert [row][1..] == [];
    assert Sort([row], (a: Row, b: Row) => RowLe(o, a, b)) == [row];
  }

  lemma FirstRecord(row: Row)
    ensures Record(NO_ATTEMPTS, row) == Attempts([Key(row)], map[Key(row) := row])
  {
    hide Key;
    assert NO_ATTEMPTS.order + [Key(row)] == [Key(row)];
  }

  lemma SecondRecord(first: Row, second: Row)
    requires Key(first) == Key(second)
    requires !(HasTweet(first) && HasTweet(second) && Get(first, TWEET) != Get(second, TWEET))
    ensures Record(Attempts([Key(first)], map[Key(first) := first]), second)
         == Attempts([Key(first)], map[Key(first) := Overlay(first, second)])
  {
    hide Key, Overlay, HasTweet, Get;
    var one := Attempts([Key(first)], map[Key(first) := first]);
    assert Record(one, second) == one.Set(Key(first), Overlay(first, second));
    assert one.rows[Key(first) := Overlay(first, second)] == map[Key(first) := Overlay(first, second)];
  }

  lemma FlatOfTwo(first: Row, second: Row)
    requires Plain(first) && Plain(second)
    ensures FlatOf(Some(Dict(first))).Then(FlatOf(Some(Dict(second)))) == Flat([first, second], [])
  {
    ReadBackAlone(first);
    ReadBackAlone(second);
    hide Flatten;
  }

  /** Two rows of one attempt, merged: one slot. */
  lemma TwoRows(o: Order, first: Row, second: Row)
    requires Plain(first) && Plain(second) && Key(first) == Key(second)
    requires !(HasTweet(first) && HasTweet(second) && Get(first, TWEET) != Get(second, TWEET))
    ensures MergeEvent(o, Some(Dict(first)), Some(Dict(second))) == Dict(Overlay(first, second))
  {
    hide Flatten, FlatOf, RecordAll, Record, Overlay, Key, Entry, HasTweet, Get, RowLe, Plain;
    FlatOfTwo(first, second);
    RecordTwo(NO_ATTEMPTS, first, second);
    FirstRecord(first);
    SecondRecord(first, second);
    OneSlot(o, Key(first), Overlay(first, second));
  }

  lemma RecordTwo(attempts: Attempts, first: Row, second: Row)
    ensures RecordAll(attempts, [first, second]) == Record(Record(attempts, first), second)
  {
    hide Record;
    assert [first, second][1..] == [second] && [second][1..] == [];
    assert RecordAll(Record(attempts, first), [second]) == RecordAll(Record(Record(attempts, first), second), []);
  }

  /** Where the blank row and the claim meet first, and the receipt after them, it is gone. */
  lemma BlankedAway(receipt: Row, blank: Row, claim: Row)
    requires Plain(receipt) && Plain(blank) && Plain(claim)
    requires Key(receipt) == Key(blank) == Key(claim)
    requires HasTweet(receipt) && BlankId(blank) && BareConfirmed(claim)
    ensures var inner := Overlay(blank, claim);
      && Plain(inner) && Key(inner) == Key(receipt) && !HasTweet(inner)
      && var outer := Overlay(receipt, inner);
      && Plain(outer) && !HasTweet(outer)
  {
    OverlayKeeps(blank, claim);
    var inner := Overlay(blank, claim);
    assert inner == blank + claim;
    assert BlankId(inner) && Rank(inner) == 4;
    OverlayKeeps(receipt, inner);
    assert Overlay(receipt, inner) == receipt + inner;
  }

  /** Any three rows of one attempt that bring the features together lose the receipt in some
      grouping: first the blank row with the claim, then the receipt with what they became. It does not
      help that no snapshot has a confirmed row with a blank id. */
  lemma DangerousRowsLoseReceipt(o: Order, receipt: Row, blank: Row, claim: Row)
    requires Plain(receipt) && Plain(blank) && Plain(claim)
    requires Key(receipt) == Key(blank) == Key(claim)
    requires HasTweet(receipt) && BlankId(blank) && BareConfirmed(claim)
    ensures var h := Merge(Snapshot(Some(Dict(receipt))), Merge(Snapshot(Some(Dict(blank))), Snapshot(Some(Dict(claim)))));
      && Receipts(Inputs(h)) != {}
      && Receipts(Rows(FlatOf(Joined(o, h)).clean)) == {}
  {
    hide Flatten, MergeEvent, Overlay, Key, HasTweet, Plain, Rank, Joined, Inputs;
    BlankedAway(receipt, blank, claim);
    var inner := Overlay(blank, claim);
    var outer := Overlay(receipt, inner);
    var h := Merge(Snapshot(Some(Dict(receipt))), Merge(Snapshot(Some(Dict(blank))), Snapshot(Some(Dict(claim)))));
    TwoRows(o, blank, claim);
    TwoRows(o, receipt, inner);
    ReadBackAlone(receipt);
    ReadBackAlone(outer);
    ThreeSnapshots(o, Dict(receipt), Dict(blank), Dict(claim));
    assert Joined(o, h) == Some(Dict(outer));
    ReceiptOf(Inputs(h), receipt);
  }

  /** Every snapshot is one of these rows without nested evidence, or lacks the event. */
  ghost predicate SingleRows(h: History, rows: set<Row>) {
    match h
    case Snapshot(entry) => entry.Some? ==> entry.value.Dict? && entry.value.fields in rows
    case Merge(left, right) => SingleRows(left, rows) && SingleRows(right, rows)
  }

  lemma {:induction false} SingleInputs(h: History, rows: set<Row>)
    requires SingleRows(h, rows) && forall r | r in rows :: Plain(r)
    ensures Inputs(h) <= rows
  {
    match h
    case Snapshot(entry) =>
      if entry.Some? {
        ReadBackAlone(entry.value.fields);
      }
    case Merge(left, right) =>
      SingleInputs(left, rows);
      SingleInputs(right, rows);
  }

  ghost predicate KeepsReceipts(o: Order, h: History) {
    Receipts(Rows(FlatOf(Joined(o, h)).clean)) == Receipts(Inputs(h))
  }

  /** MAIN RESULT. The condition is exact: all histories over snapshots of these single rows keep exactly their
      receipts if and only if no attempt brings the three features together among the rows. */
  lemma SafeExactly(o: Order, rows: set<Row>)
    requires forall r | r in rows :: Plain(r)
    ensures Safe(rows) <==> forall h | SingleRows(h, rows) :: KeepsReceipts(o, h)
  {
    hide KeepsReceipts, SingleRows;
    if Safe(rows) {
      forall h | SingleRows(h, rows) ensures KeepsReceipts(o, h) {
        SafeKeeps(o, rows, h);
      }
    } else {
      hide Key, HasTweet, BlankId, BareConfirmed, Plain;
      var r, b, c :| r in rows && b in rows && c in rows && Key(r) == Key(b) == Key(c)
        && HasTweet(r) && BlankId(b) && BareConfirmed(c);
      var h := DangerousHistory(o, rows, r, b, c);
    }
  }

  lemma SafeKeeps(o: Order, rows: set<Row>, h: History)
    requires (forall r | r in rows :: Plain(r)) && Safe(rows) && SingleRows(h, rows)
    ensures KeepsReceipts(o, h)
  {
    hide Safe, SingleRows, Joined, Inputs;
    SingleInputs(h, rows);
    SafeSubset(Inputs(h), rows);
    ReceiptsJoin(o, h);
  }

  lemma DangerousHistory(o: Order, rows: set<Row>, r: Row, b: Row, c: Row) returns (h: History)
    requires r in rows && b in rows && c in rows && Plain(r) && Plain(b) && Plain(c)
    requires Key(r) == Key(b) == Key(c) && HasTweet(r) && BlankId(b) && BareConfirmed(c)
    ensures SingleRows(h, rows) && !KeepsReceipts(o, h)
  {
    var inner := Merge(Snapshot(Some(Dict(b))), Snapshot(Some(Dict(c))));
    h := Merge(Snapshot(Some(Dict(r))), inner);
    assert SingleRows(inner, rows);
    hide Key, HasTweet, Joined, Receipts, Inputs, FlatOf, BlankId, BareConfirmed, Plain;
    DangerousRowsLoseReceipt(o, r, b, c);
  }

  lemma ThreeSnapshots(o: Order, a: Json, b: Json, c: Json)
    ensures var h := Merge(Snapshot(Some(a)), Merge(Snapshot(Some(b)), Snapshot(Some(c))));
      && Joined(o, h) == Some(MergeEvent(o, Some(a), Some(MergeEvent(o, Some(b), Some(c)))))
      && Rows(Flatten([a]).clean) <= Inputs(h)
  {
    hide MergeEvent, Flatten;
    var inner := Merge(Snapshot(Some(b)), Snapshot(Some(c)));
    assert Joined(o, inner) == Some(MergeEvent(o, Some(b), Some(c)));
    assert Inputs(Snapshot(Some(a))) == Rows(Flatten([a]).clean);
  }
}
