/** Which phase a merged attempt has, and which attempt a merged entry shows first, told in the phases' own names. */
module LedgerPhases {
  import opened Common
  import opened Ledger
  import opened LedgerReceipts
  import opened LedgerMerges

  /** The phases from each rung of the order upwards: confirmed, not_sent, unknown, submitted. */
  const CONFIRMED: set<string> := {"confirmed"}
  const ENDED: set<string> := {"confirmed", "not_sent"}
  const DOUBTED: set<string> := {"confirmed", "not_sent", "unknown"}
  const STARTED: set<string> := {"confirmed", "not_sent", "unknown", "submitted"}

  predicate IsRung(rung: set<string>) { rung == CONFIRMED || rung == ENDED || rung == DOUBTED || rung == STARTED }

  /** The row has a receipt, or its phase is on the rung or above. */
  predicate Reaches(row: Row, rung: set<string>) {
    HasTweet(row) || ("phase" in row && row["phase"].Text? && row["phase"].s in rung)
  }

  /** Merging two observations of one attempt reaches exactly as high as the higher one. */
  lemma OverlayReaches(existing: Row, row: Row, rung: set<string>)
    requires Key(existing) == Key(row) && Plain(existing) && Plain(row) && IsRung(rung)
    ensures Reaches(Overlay(existing, row), rung) <==> Reaches(existing, rung) || Reaches(row, rung)
  {
    hide Key, Plain;
  }

  ghost predicate SomeReaches(rows: set<Row>, key: Json, rung: set<string>) {
    exists s | s in rows :: Key(s) == key && Reaches(s, rung)
  }

  ghost predicate Observed(rows: set<Row>, key: Json) { exists s | s in rows :: Key(s) == key }

  lemma SomeReachesIn(rows: set<Row>, s: Row, rung: set<string>)
    requires s in rows
    ensures Observed(rows, Key(s)) && (Reaches(s, rung) ==> SomeReaches(rows, Key(s), rung))
  {
    hide Key;
  }

  lemma ReachesUnion(a: set<Row>, b: set<Row>, key: Json, rung: set<string>)
    ensures SomeReaches(a + b, key, rung) <==> SomeReaches(a, key, rung) || SomeReaches(b, key, rung)
    ensures Observed(a + b, key) <==> Observed(a, key) || Observed(b, key)
  {
    hide Key, Reaches;
    forall s | s in a + b ensures s in a || s in b {}
    if SomeReaches(a, key, rung) {
      var s :| s in a && Key(s) == key && Reaches(s, rung);
      assert s in a + b;
    }
    if SomeReaches(b, key, rung) {
      var s :| s in b && Key(s) == key && Reaches(s, rung);
      assert s in a + b;
    }
    if Observed(a, key) {
      var s :| s in a && Key(s) == key;
      assert s in a + b;
    }
    if Observed(b, key) {
      var s :| s in b && Key(s) == key;
      assert s in a + b;
    }
  }

  // ----- one merge

  /** A slot of an attempt reaches the rung as soon as one of the recorded rows of it does, and only then; and an
      attempt with a row has a slot. */
  ghost predicate Holds(attempts: Attempts, rows: set<Row>, key: Json, rung: set<string>) {
    && (forall k | k in attempts.rows && Key(attempts.rows[k]) == key ::
          Reaches(attempts.rows[k], rung) <==> SomeReaches(rows, key, rung))
    && (key in attempts.rows <==> Observed(rows, key))
  }

  /** Rows beside the slot of their attempt are there because they carry a contradicting receipt. */
  lemma BesideReaches(attempts: Attempts, k: Json, rung: set<string>)
    requires SlotsFit(attempts) && k in attempts.rows && k != Key(attempts.rows[k])
    ensures Reaches(attempts.rows[k], rung)
  {
    hide Key, Plain;
  }

  lemma RecordHolds(attempts: Attempts, rows: set<Row>, row: Row, who: Row, rung: set<string>)
    requires SlotsFit(attempts) && Plain(row) && IsRung(rung) && Holds(attempts, rows, Key(who), rung)
    ensures Holds(Record(attempts, row), rows + {row}, Key(who), rung)
  {
    var key := Key(who);
    ReachesUnion(rows, {row}, key, rung);
    assert Observed({row}, key) <==> Key(row) == key;
    assert SomeReaches({row}, key, rung) <==> Key(row) == key && Reaches(row, rung);
    if Key(row) == key {
      RecordOwn(attempts, row, rung);
      forall k | k in attempts.rows && Key(attempts.rows[k]) == key && k != key ensures Reaches(attempts.rows[k], rung) {
        BesideReaches(attempts, k, rung);
      }
    } else {
      RecordOther(attempts, row, who);
    }
    hide Key, Record, Reaches, SlotsFit, SomeReaches, Observed, Plain;
  }

  /** What recording a row does to the rows of its own attempt. */
  lemma RecordOwn(attempts: Attempts, row: Row, rung: set<string>)
    requires SlotsFit(attempts) && Plain(row) && IsRung(rung)
    ensures var key, after := Key(row), Record(attempts, row);
      && key in after.rows
      && (forall k | k in after.rows && k in attempts.rows && k != key :: after.rows[k] == attempts.rows[k])
      && (forall k | k in after.rows && k !in attempts.rows && k != key :: after.rows[k] == row && Reaches(row, rung))
      && (key !in attempts.rows ==> after.rows[key] == row)
      && (key in attempts.rows ==> Key(attempts.rows[key]) == key)
      && (key in attempts.rows ==>
            (Reaches(after.rows[key], rung) <==> Reaches(attempts.rows[key], rung) || Reaches(row, rung)))
  {
    var key := Key(row);
    AlternateApart(attempts, row);
    if key in attempts.rows {
      OwnSlot(attempts, row);
      OverlayReaches(attempts.rows[key], row, rung);
    }
    hide Key, Overlay, Plain;
  }

  /** A slot beside an attempt's own holds the very row it is named after. */
  lemma AlternateApart(attempts: Attempts, row: Row)
    requires SlotsFit(attempts)
    ensures HasTweet(row) ==> Dict(row) != Key(row)
    ensures HasTweet(row) && Dict(row) in attempts.rows ==> attempts.rows[Dict(row)] == row
  {
    if HasTweet(row) {
      AlternateIsNoIdentity(row, row);
      if Dict(row) in attempts.rows {
        AlternateIsNoIdentity(row, attempts.rows[Dict(row)]);
      }
    }
    hide Key;
  }

  /** Both hold the same rows of this attempt, in the same slots. */
  ghost predicate SameOf(a: Attempts, b: Attempts, key: Json) {
    && (key in a.rows <==> key in b.rows)
    && (forall k | k in a.rows && Key(a.rows[k]) == key :: k in b.rows && b.rows[k] == a.rows[k])
    && (forall k | k in b.rows && Key(b.rows[k]) == key :: k in a.rows && a.rows[k] == b.rows[k])
  }

  lemma SetOther(attempts: Attempts, k: Json, row: Row, key: Json)
    requires k != key && Key(row) != key && (k in attempts.rows ==> Key(attempts.rows[k]) != key)
    ensures SameOf(attempts, attempts.Set(k, row), key)
  {
    hide Key;
  }

  /** Recording a row touches no other attempt. */
  lemma RecordOther(attempts: Attempts, row: Row, who: Row)
    requires SlotsFit(attempts) && Plain(row) && Key(who) != Key(row)
    ensures SameOf(attempts, Record(attempts, row), Key(who))
  {
    AlternateApart(attempts, row);
    if HasTweet(row) {
      AlternateIsNoIdentity(row, who);
    }
    if Key(row) in attempts.rows {
      OwnSlot(attempts, row);
      OverlayKeeps(attempts.rows[Key(row)], row);
      SetOther(attempts, Key(row), Overlay(attempts.rows[Key(row)], row), Key(who));
      if HasTweet(row) {
        SetOther(attempts, Dict(row), row, Key(who));
      }
    } else {
      SetOther(attempts, Key(row), row, Key(who));
    }
    hide Key, Overlay, Plain, SlotsFit, HasTweet, Get, SameOf, Rank;
  }

  lemma {:induction false} RecordAllHolds(attempts: Attempts, seen: set<Row>, rows: seq<Row>, who: Row, rung: set<string>)
    requires SlotsFit(attempts) && (forall r | r in rows :: Plain(r)) && IsRung(rung) && Holds(attempts, seen, Key(who), rung)
    ensures Holds(RecordAll(attempts, rows), seen + Rows(rows), Key(who), rung)
    decreases |rows|
  {
    hide Record, Key, SlotsFit, Plain, Holds, IsRung;
    if rows == [] {
      assert seen + Rows(rows) == seen;
    } else {
      RecordFits(attempts, rows[0]);
      RecordHolds(attempts, seen, rows[0], who, rung);
      RowsStep(seen, rows);
      hide Rows;
      RecordAllHolds(Record(attempts, rows[0]), seen + {rows[0]}, rows[1..], who, rung);
    }
  }

  /** What a merged entry says of one attempt: every row of it reaches exactly as high as some row before the merge,
      and it has a row if it had one. Only the mark without content is not counted as an attempt. */
  ghost predicate Carries(after: set<Row>, before: set<Row>, who: Row, rung: set<string>) {
    && (forall r | r in after && Key(r) == Key(who) :: Reaches(r, rung) <==> SomeReaches(before, Key(who), rung))
    && (who != MARK ==> (Observed(after, Key(who)) <==> Observed(before, Key(who))))
  }

  lemma MarkAlone(r: Row, rung: set<string>)
    ensures Key(r) == Key(MARK) <==> r == MARK
    ensures !Reaches(MARK, rung)
  {
    assert !Identified(MARK);
    if Key(r) == Key(MARK) {
      SameIdentity(r, MARK);
    }
    hide Key;
  }

  lemma MergeCarries(o: Order, base: Option<Json>, nxt: Option<Json>, who: Row, rung: set<string>)
    requires IsRung(rung)
    ensures var merged, rows := FlatOf(Some(MergeEvent(o, base, nxt))), Rows(FlatOf(base).clean) + Rows(FlatOf(nxt).clean);
      Carries(Rows(merged.clean), rows, who, rung)
  {
    MergeReadsBack(o, base, nxt);
    var flat := FlatOf(base).Then(FlatOf(nxt));
    var attempts := RecordAll(NO_ATTEMPTS, flat.clean);
    var merged := FlatOf(Some(MergeEvent(o, base, nxt)));
    var rows := Rows(FlatOf(base).clean) + Rows(FlatOf(nxt).clean);
    assert Rows(flat.clean) == rows == {} + rows;
    assert Holds(NO_ATTEMPTS, {}, Key(who), rung) && SlotsFit(NO_ATTEMPTS);
    hide Flatten, FlatOf, MergeEvent, RecordAll, Key, IsRung, Plain;
    RecordAllHolds(NO_ATTEMPTS, {}, flat.clean, who, rung);
    RecordAllFits(NO_ATTEMPTS, flat.clean);
    MarkAlone(who, rung);
    SlotsCarry(attempts, rows, Rows(merged.clean), who, rung);
  }

  lemma SlotsCarry(attempts: Attempts, rows: set<Row>, after: set<Row>, who: Row, rung: set<string>)
    requires SlotsFit(attempts) && Holds(attempts, rows, Key(who), rung)
    requires forall r: Row | r != MARK :: r in after <==> r in Slots(attempts)
    ensures Carries(after, rows, who, rung)
  {
    hide Flatten, Key, Plain, Reaches;
    MarkAlone(who, rung);
    forall r | r in after && Key(r) == Key(who) ensures Reaches(r, rung) <==> SomeReaches(rows, Key(who), rung) {
      MarkAlone(r, rung);
      if r == MARK {
        assert Key(who) == Key(MARK);
        NoneReaches(rows, rung);
      } else {
        var k :| k in attempts.rows && attempts.rows[k] == r;
      }
    }
    if who != MARK {
      if Observed(rows, Key(who)) {
        var r := attempts.rows[Key(who)];
        SlotOfKey(attempts, who);
        assert r in Slots(attempts);
        MarkAlone(r, rung);
        assert r in after;
      }
      if Observed(after, Key(who)) {
        var r :| r in after && Key(r) == Key(who);
        MarkAlone(r, rung);
        var k :| k in attempts.rows && attempts.rows[k] == r;
        if k != Key(who) {
          BesideReaches(attempts, k, rung);
          assert SomeReaches(rows, Key(who), rung);
        }
      }
    }
  }

  lemma NoneReaches(rows: set<Row>, rung: set<string>)
    ensures !SomeReaches(rows, Key(MARK), rung)
  {
    hide Key, Reaches;
    forall s | s in rows && Key(s) == Key(MARK) ensures !Reaches(s, rung) {
      MarkAlone(s, rung);
    }
  }

  lemma SlotOfKey(attempts: Attempts, who: Row)
    requires SlotsFit(attempts) && Key(who) in attempts.rows
    ensures Key(attempts.rows[Key(who)]) == Key(who)
  {
    var r := attempts.rows[Key(who)];
    if HasTweet(r) {
      AlternateIsNoIdentity(r, who);
    }
    hide Key;
  }

  // ----- any merges

  lemma {:induction false} HistoryCarries(o: Order, h: History, who: Row, rung: set<string>)
    requires IsRung(rung)
    ensures var rows := Rows(FlatOf(Joined(o, h)).clean);
      && (SomeReaches(rows, Key(who), rung) <==> SomeReaches(Inputs(h), Key(who), rung))
      && (who != MARK ==> (Observed(rows, Key(who)) <==> Observed(Inputs(h), Key(who))))
      && (h.Merge? ==> Carries(rows, Inputs(h), who, rung))
  {
    hide Flatten, MergeEvent, Key, IsRung, Reaches;
    match h
    case Snapshot(entry) =>
    case Merge(left, right) =>
      HistoryCarries(o, left, who, rung);
      HistoryCarries(o, right, who, rung);
      var base, nxt := Joined(o, left), Joined(o, right);
      var a, b := Rows(FlatOf(base).clean), Rows(FlatOf(nxt).clean);
      ReachesUnion(a, b, Key(who), rung);
      ReachesUnion(Inputs(left), Inputs(right), Key(who), rung);
      var rows := Rows(FlatOf(Joined(o, h)).clean);
      if base.None? && nxt.None? {
        assert a == {} && b == {} && rows == {};
      } else {
        MergeCarries(o, base, nxt, who, rung);
        hide FlatOf, Joined, Rows, Inputs, SomeReaches, Observed;
        CarriesUp(rows, a + b, Inputs(h), who, rung);
      }
  }

  lemma CarriesUp(rows: set<Row>, before: set<Row>, inputs: set<Row>, who: Row, rung: set<string>)
    requires Carries(rows, before, who, rung)
    requires SomeReaches(before, Key(who), rung) <==> SomeReaches(inputs, Key(who), rung)
    requires who != MARK ==> (Observed(before, Key(who)) <==> Observed(inputs, Key(who)))
    ensures Carries(rows, inputs, who, rung)
    ensures SomeReaches(rows, Key(who), rung) <==> SomeReaches(inputs, Key(who), rung)
  {
    hide Key, Reaches;
    if SomeReaches(inputs, Key(who), rung) {
      if who == MARK {
        NoneReaches(inputs, rung);
      } else {
        assert Observed(before, Key(who)) by {
          var s :| s in before && Key(s) == Key(who) && Reaches(s, rung);
        }
        var r :| r in rows && Key(r) == Key(who);
      }
    }
  }

  /** MAIN RESULT. After any merges, in any order, grouping and number, every row of an attempt stands exactly as high
      as the highest of all observations of that attempt in the snapshots, in the order confirmed, not_sent,
      unknown, submitted, a receipt standing with confirmed. And no attempt is lost or invented. */
  lemma PhaseIsHighest(o: Order, h: History, r: Row, rung: set<string>)
    requires IsRung(rung) && h.Merge?
    ensures r in FlatOf(Joined(o, h)).clean ==>
              (Reaches(r, rung) <==> exists s | s in Inputs(h) :: Key(s) == Key(r) && Reaches(s, rung))
    ensures r != MARK ==>
              ((exists x | x in FlatOf(Joined(o, h)).clean :: Key(x) == Key(r)) <==> exists s | s in Inputs(h) :: Key(s) == Key(r))
  {
    HistoryCarries(o, h, r, rung);
    var rows := Rows(FlatOf(Joined(o, h)).clean);
    assert forall x | x in FlatOf(Joined(o, h)).clean :: x in rows;
    hide Flatten, MergeEvent, Key, IsRung, Reaches, Joined, Inputs, FlatOf;
  }

  /** MAIN RESULT. What some snapshot records as not sent is never again read as submitted or unknown, unless it
      carries a receipt: it stays not_sent, or is confirmed because some snapshot says so. */
  lemma EndedStaysEnded(o: Order, h: History, s: Row, r: Row)
    requires h.Merge? && s in Inputs(h) && Get(s, "phase") == Text("not_sent")
    requires r in FlatOf(Joined(o, h)).clean && Key(r) == Key(s) && !HasTweet(r)
    ensures Get(r, "phase") == Text("not_sent") || Get(r, "phase") == Text("confirmed")
    ensures (forall x | x in Inputs(h) && Key(x) == Key(s) :: !HasTweet(x) && Get(x, "phase") != Text("confirmed")) ==>
              Get(r, "phase") == Text("not_sent")
  {
    PhaseIsHighest(o, h, r, ENDED);
    PhaseIsHighest(o, h, r, CONFIRMED);
    hide Flatten, MergeEvent, Key, Joined, Inputs, FlatOf;
    assert Reaches(s, ENDED);
  }

  /** The row that a merged entry shows stands above all its attempts: first those with a receipt, then the later
      ones, then the higher phase, then by fingerprint. */
  lemma PrimaryIsGreatest(o: Order, base: Option<Json>, nxt: Option<Json>, r: Row, rung: set<string>)
    requires IsRung(rung) && r in FlatOf(Some(MergeEvent(o, base, nxt))).clean && r != MARK
    ensures MergeEvent(o, base, nxt).Dict?
    ensures var p := Bare(MergeEvent(o, base, nxt).fields);
      && (HasTweet(r) ==> HasTweet(p))
      && (HasTweet(r) == HasTweet(p) ==> o.time(r) <= o.time(p))
      && (HasTweet(r) == HasTweet(p) && o.time(r) == o.time(p) && Reaches(r, rung) ==> Reaches(p, rung))
      && (HasTweet(r) == HasTweet(p) && o.time(r) == o.time(p) && (forall x | IsRung(x) :: Reaches(r, x) == Reaches(p, x)) ==>
            o.place(Dict(r)) <= o.place(Dict(p)))
  {
    MergeReadsBack(o, base, nxt);
    var flat := FlatOf(base).Then(FlatOf(nxt));
    var attempts := RecordAll(NO_ATTEMPTS, flat.clean);
    RecordAllValid(NO_ATTEMPTS, flat.clean);
    RecordAllFits(NO_ATTEMPTS, flat.clean);
    assert MergeEvent(o, base, nxt) == Entry(o, attempts, flat.malformed);
    hide *;
    EntryIsGreatest(o, attempts, flat.malformed, r);
    LeMeans(o, r, Bare(MergeEvent(o, base, nxt).fields), rung);
  }

  lemma BareOf(primary: Row, nested: Json)
    requires Plain(primary)
    ensures Bare(primary) == primary && Bare(primary[CONFLICTS := nested]) == primary
  {
  }

  lemma EntryIsGreatest(o: Order, attempts: Attempts, malformed: seq<Json>, r: Row)
    requires attempts.Valid() && SlotsFit(attempts) && r in Slots(attempts)
    ensures Entry(o, attempts, malformed).Dict? && RowLe(o, r, Bare(Entry(o, attempts, malformed).fields))
  {
    assert forall x | x in Slots(attempts) :: Plain(x);
    hide *;
    var primary, rows := EntryParts(o, attempts, malformed);
    BareOf(primary, List(Evidence(o, rows, malformed)));
  }

  lemma LeMeans(o: Order, r: Row, p: Row, rung: set<string>)
    requires RowLe(o, r, p) && IsRung(rung)
    ensures HasTweet(r) ==> HasTweet(p)
    ensures HasTweet(r) == HasTweet(p) ==> o.time(r) <= o.time(p)
    ensures HasTweet(r) == HasTweet(p) && o.time(r) == o.time(p) && Reaches(r, rung) ==> Reaches(p, rung)
    ensures HasTweet(r) == HasTweet(p) && o.time(r) == o.time(p) && (forall x | IsRung(x) :: Reaches(r, x) == Reaches(p, x)) ==>
              o.place(Dict(r)) <= o.place(Dict(p))
  {
    if forall x | IsRung(x) :: Reaches(r, x) == Reaches(p, x) {
      assert Reaches(r, CONFIRMED) == Reaches(p, CONFIRMED) && Reaches(r, ENDED) == Reaches(p, ENDED);
      assert Reaches(r, DOUBTED) == Reaches(p, DOUBTED) && Reaches(r, STARTED) == Reaches(p, STARTED);
    }
  }
}
