/** Serialized writes of the whole state: each reads the current snapshot, merges an arbitrary incoming one into it
    and stores the result under a new revision number. Only the keys that must never move back are modelled. */
module StateWrites {
  import opened Common
  import opened Ordered
  import opened Ledger
  import opened LedgerReceipts
  import opened LedgerMerges
  import LedgerPhases

  /** The tables that keep the greatest value of each key, and what a missing key counts as. Dates are numbered by their
      string order, the empty one being 0. */
  datatype Table = AnnualCount | FireTier | CycloneTier | CoralTier | SeaTier | LastFired | TierTouched

  function Floor(t: Table): int { if t.FireTier? || t.CycloneTier? then -1 else 0 }

  type Tiers = map<string, int>
  type Pairs = map<string, seq<Key>>

  /** `rev` is none when the stored revision cannot be read as a number. */
  datatype State = State(
    rev: Option<int>,
    tables: map<Table, Tiers>,
    pairs: Pairs,
    ledger: map<string, Json>)

  // ----- the strategies

  /** `_strat_max_by_key` */
  function MaxByKey(floor: int, base: Tiers, nxt: Tiers): Tiers {
    map k | k in base.Keys + nxt.Keys ::
      var a, b := if k in base then base[k] else floor, if k in nxt then nxt[k] else floor;
      if a >= b then a else b
  }

  method MergeTiers(floor: int, base: Tiers, nxt: Tiers) returns (out: Tiers)
    ensures out == MaxByKey(floor, base, nxt)
  {
    out := map[];
    var keys := base.Keys + nxt.Keys;
    while keys != {}
      invariant keys <= base.Keys + nxt.Keys && out.Keys == base.Keys + nxt.Keys - keys
      invariant forall k | k in out :: out[k] == MaxByKey(floor, base, nxt)[k]
      decreases keys
    {
      var k :| k in keys;
      var a, b := if k in base then base[k] else floor, if k in nxt then nxt[k] else floor;
      out := out[k := if a >= b then a else b];
      keys := keys - {k};
    }
  }

  function Slugs(pairs: Pairs, storm: string): set<Key> {
    if storm in pairs then set s | s in pairs[storm] else {}
  }

  /** `_merge_land_threat_pairs` */
  function MergePairs(ours: Pairs, theirs: Pairs): Pairs {
    map storm | storm in ours.Keys + theirs.Keys :: Ascending(Slugs(ours, storm) + Slugs(theirs, storm))
  }

  method MergeLandThreatPairs(ours: Pairs, theirs: Pairs) returns (merged: Pairs)
    ensures merged == MergePairs(ours, theirs)
  {
    merged := map[];
    var storms := ours.Keys + theirs.Keys;
    while storms != {}
      invariant storms <= ours.Keys + theirs.Keys && merged.Keys == ours.Keys + theirs.Keys - storms
      invariant forall s | s in merged :: merged[s] == MergePairs(ours, theirs)[s]
      decreases storms
    {
      var s :| s in storms;
      merged := merged[s := Ascending(Slugs(ours, s) + Slugs(theirs, s))];
      storms := storms - {s};
    }
  }

  /** `_state_rev_value` */
  function Rev(s: State): int { if s.rev.Some? then s.rev.value else 0 }

  function TableOf(s: State, t: Table): Tiers { if t in s.tables then s.tables[t] else map[] }

  /** `_prepare_merged_write` */
  function Merged(o: Order, current: State, incoming: State): State {
    State(
      Some((if Rev(current) >= Rev(incoming) then Rev(current) else Rev(incoming)) + 1),
      map t: Table | true :: MaxByKey(Floor(t), TableOf(current, t), TableOf(incoming, t)),
      MergePairs(current.pairs, incoming.pairs),
      MergeLedger(o, current.ledger, incoming.ledger))
  }

  /** The place where the state is kept; a write that cannot be stored changes nothing. */
  class Store {
    var state: State

    constructor (initial: State)
      ensures state == initial
    {
      state := initial;
    }

    method Write(o: Order, incoming: State, stored: bool) returns (ok: bool)
      modifies this
      ensures ok == stored && state == if stored then Merged(o, old(state), incoming) else old(state)
    {
      var current := state;
      var tables: map<Table, Tiers> := map[];
      var rest: set<Table> := {AnnualCount, FireTier, CycloneTier, CoralTier, SeaTier, LastFired, TierTouched};
      ghost var all := rest;
      forall t: Table ensures t in all {
        match t
        case AnnualCount =>
        case FireTier =>
        case CycloneTier =>
        case CoralTier =>
        case SeaTier =>
        case LastFired =>
        case TierTouched =>
      }
      while rest != {}
        invariant rest <= all && tables.Keys == all - rest && state == current
        invariant forall t | t in tables :: tables[t] == MaxByKey(Floor(t), TableOf(current, t), TableOf(incoming, t))
        decreases rest
      {
        var t :| t in rest;
        var merged := MergeTiers(Floor(t), TableOf(current, t), TableOf(incoming, t));
        tables := tables[t := merged];
        rest := rest - {t};
      }
      var pairs := MergeLandThreatPairs(current.pairs, incoming.pairs);
      var ledger := MergePublishLedger(o, current.ledger, incoming.ledger);
      var a, b := Rev(current), Rev(incoming);
      if stored {
        state := State(Some((if a >= b then a else b) + 1), tables, pairs, ledger);
      }
      ok := stored;
      hide MergeLedger, MergePairs, MaxByKey;
      assert stored ==> state.tables == Merged(o, current, incoming).tables;
    }
  }

  // ----- sequences of writes

  function After(o: Order, s: State, incoming: seq<State>): State
    decreases |incoming|
  {
    if incoming == [] then s else After(o, Merged(o, s, incoming[0]), incoming[1..])
  }

  /** MAIN RESULT. The revision rises with every write, and past every incoming one. */
  lemma {:induction false} RevisionRises(o: Order, s: State, incoming: seq<State>)
    ensures Rev(After(o, s, incoming)) >= Rev(s) + |incoming|
    ensures forall i | 0 <= i < |incoming| :: Rev(After(o, s, incoming)) > Rev(incoming[i])
    decreases |incoming|
  {
    if incoming != [] {
      var next := Merged(o, s, incoming[0]);
      assert Rev(next) > Rev(s) && Rev(next) > Rev(incoming[0]);
      hide Merged;
      RevisionRises(o, next, incoming[1..]);
    }
  }

  /** A key's value before a merge, when the snapshot has none: tiers of fires and cyclones start at -1, since 0 is a
      tier of theirs, everything else at 0. */
  function Recorded(s: State, t: Table, k: string): int {
    if t in s.tables && k in s.tables[t] then s.tables[t][k]
    else match t
      case FireTier => -1
      case CycloneTier => -1
      case _ => 0
  }

  /** What one write leaves: a revision one above the greater of the two, and of each key the greater value. */
  lemma WriteExactly(o: Order, s: State, incoming: State, t: Table, k: string)
    ensures var ours, theirs := if s.rev == None then 0 else s.rev.value, if incoming.rev == None then 0 else incoming.rev.value;
      var r := Merged(o, s, incoming).rev;
      r.Some? && r.value > ours && r.value > theirs && (r.value - 1 == ours || r.value - 1 == theirs)
    ensures var m := Merged(o, s, incoming).tables;
      && t in m
      && (k in m[t] <==> (t in s.tables && k in s.tables[t]) || (t in incoming.tables && k in incoming.tables[t]))
      && (k in m[t] ==>
           && m[t][k] >= Recorded(s, t, k) && m[t][k] >= Recorded(incoming, t, k)
           && (m[t][k] == Recorded(s, t, k) || m[t][k] == Recorded(incoming, t, k)))
  {
    hide MergeLedger, MergePairs;
  }

  /** A key of a table, once recorded, stays with no lower value. */
  predicate Holds(s: State, t: Table, k: string, v: int) { k in TableOf(s, t) && TableOf(s, t)[k] >= v }

  lemma MergeHolds(o: Order, s: State, incoming: State, t: Table, k: string, v: int)
    requires Holds(s, t, k, v) || Holds(incoming, t, k, v)
    ensures Holds(Merged(o, s, incoming), t, k, v)
  {
    hide MergeLedger, MergePairs;
  }

  /** MAIN RESULT. No recorded value of a table is ever lost or lowered, whatever is written over it: neither one
      of the stored snapshot nor one of any snapshot written since. */
  lemma {:induction false} TiersNeverFall(o: Order, s: State, incoming: seq<State>, t: Table, k: string, v: int)
    requires Holds(s, t, k, v) || exists i | 0 <= i < |incoming| :: Holds(incoming[i], t, k, v)
    ensures Holds(After(o, s, incoming), t, k, v)
    decreases |incoming|
  {
    if incoming != [] {
      var next, rest := Merged(o, s, incoming[0]), incoming[1..];
      if Holds(s, t, k, v) || Holds(incoming[0], t, k, v) {
        MergeHolds(o, s, incoming[0], t, k, v);
      } else {
        var i :| 0 <= i < |incoming| && Holds(incoming[i], t, k, v);
        assert rest[i - 1] == incoming[i];
      }
      hide Merged, Holds;
      TiersNeverFall(o, next, rest, t, k, v);
    }
  }

  predicate AtLeast(m: Tiers, floor: int) { forall k | k in m :: m[k] >= floor }

  function ValueAt(floor: int, m: Tiers, k: string): int { if k in m then m[k] else floor }

  lemma MaxAt(floor: int, a: Tiers, b: Tiers, k: string)
    ensures k in MaxByKey(floor, a, b) <==> k in a || k in b
    ensures var x, y := ValueAt(floor, a, k), ValueAt(floor, b, k);
            ValueAt(floor, MaxByKey(floor, a, b), k) == if k in a || k in b then (if x >= y then x else y) else floor
  {
  }

  lemma SameTiers(floor: int, x: Tiers, y: Tiers)
    requires forall k: string :: (k in x <==> k in y) && ValueAt(floor, x, k) == ValueAt(floor, y, k)
    ensures x == y
  {
    assert x.Keys == y.Keys;
    forall k | k in x ensures x[k] == y[k] {
      assert ValueAt(floor, x, k) == ValueAt(floor, y, k);
    }
  }

  /** On values that are not below the floor the merge of a table is a join. */
  lemma TiersJoin(floor: int, a: Tiers, b: Tiers, c: Tiers)
    requires AtLeast(a, floor) && AtLeast(b, floor) && AtLeast(c, floor)
    ensures MaxByKey(floor, a, b) == MaxByKey(floor, b, a)
    ensures MaxByKey(floor, MaxByKey(floor, a, b), c) == MaxByKey(floor, a, MaxByKey(floor, b, c))
    ensures MaxByKey(floor, a, a) == a
  {
    var ab, ba, bc, aa := MaxByKey(floor, a, b), MaxByKey(floor, b, a), MaxByKey(floor, b, c), MaxByKey(floor, a, a);
    var x, y := MaxByKey(floor, ab, c), MaxByKey(floor, a, bc);
    hide MaxByKey;
    forall k: string
      ensures (k in ab <==> k in ba) && ValueAt(floor, ab, k) == ValueAt(floor, ba, k)
      ensures (k in x <==> k in y) && ValueAt(floor, x, k) == ValueAt(floor, y, k)
      ensures (k in aa <==> k in a) && ValueAt(floor, aa, k) == ValueAt(floor, a, k)
    {
      MaxAt(floor, a, b, k);
      MaxAt(floor, b, a, k);
      MaxAt(floor, b, c, k);
      MaxAt(floor, a, a, k);
      MaxAt(floor, ab, c, k);
      MaxAt(floor, a, bc, k);
    }
    SameTiers(floor, ab, ba);
    SameTiers(floor, x, y);
    SameTiers(floor, aa, a);
  }

  lemma SlugsMerged(ours: Pairs, theirs: Pairs, storm: string)
    ensures Slugs(MergePairs(ours, theirs), storm) == Slugs(ours, storm) + Slugs(theirs, storm)
  {
    var all := Slugs(ours, storm) + Slugs(theirs, storm);
    AscendingSorts(all);
    assert (set s | s in Ascending(all)) == all;
    hide Ascending;
  }

  lemma MergedSlugs(o: Order, s: State, incoming: State, storm: string)
    ensures Slugs(Merged(o, s, incoming).pairs, storm) == Slugs(s.pairs, storm) + Slugs(incoming.pairs, storm)
  {
    SlugsMerged(s.pairs, incoming.pairs, storm);
    hide Slugs, MergePairs, MergeLedger, MaxByKey;
  }

  function SlugsOf(incoming: seq<State>, storm: string): set<Key> {
    if incoming == [] then {} else Slugs(incoming[0].pairs, storm) + SlugsOf(incoming[1..], storm)
  }

  /** MAIN RESULT. The recorded landmasses of a storm are exactly those of all snapshots: none disappears, none is
      invented. */
  lemma {:induction false} PairsAreUnion(o: Order, s: State, incoming: seq<State>, storm: string)
    ensures Slugs(After(o, s, incoming).pairs, storm) == Slugs(s.pairs, storm) + SlugsOf(incoming, storm)
    decreases |incoming|
  {
    if incoming != [] {
      MergedSlugs(o, s, incoming[0], storm);
      hide Merged, Slugs;
      PairsAreUnion(o, Merged(o, s, incoming[0]), incoming[1..], storm);
    }
  }

  /** How the ledger entry of one event came about over a sequence of writes. */
  function HistoryOf(h: History, incoming: seq<State>, event: string): History
    decreases |incoming|
  {
    if incoming == [] then h
    else HistoryOf(History.Merge(h, History.Snapshot(Look(incoming[0].ledger, event))), incoming[1..], event)
  }

  lemma {:induction false} LedgerHistory(o: Order, s: State, h: History, incoming: seq<State>, event: string)
    requires LedgerMerges.Joined(o, h) == Look(s.ledger, event)
    ensures LedgerMerges.Joined(o, HistoryOf(h, incoming, event)) == Look(After(o, s, incoming).ledger, event)
    decreases |incoming|
  {
    if incoming != [] {
      var next := Merged(o, s, incoming[0]);
      var step := History.Merge(h, History.Snapshot(Look(incoming[0].ledger, event)));
      OneEvent(o, s, incoming[0], event);
      hide Merged, MergeEvent, Look;
      LedgerHistory(o, next, step, incoming[1..], event);
    }
  }

  lemma OneEvent(o: Order, s: State, incoming: State, event: string)
    ensures Look(Merged(o, s, incoming).ledger, event) ==
            var base, nxt := Look(s.ledger, event), Look(incoming.ledger, event);
            if base.None? && nxt.None? then None else Some(MergeEvent(o, base, nxt))
  {
    hide MergeEvent, MergePairs, MaxByKey;
  }

  /** MAIN RESULT. Over any sequence of writes the receipts of an event are exactly those of all snapshots written,
      unless some attempt brings the three dangerous features together. */
  lemma ReceiptsKept(o: Order, s: State, incoming: seq<State>, event: string)
    requires Safe(Inputs(HistoryOf(History.Snapshot(Look(s.ledger, event)), incoming, event)))
    ensures Receipts(Rows(FlatOf(Look(After(o, s, incoming).ledger, event)).clean))
            == Receipts(Inputs(HistoryOf(History.Snapshot(Look(s.ledger, event)), incoming, event)))
  {
    var h := History.Snapshot(Look(s.ledger, event));
    LedgerHistory(o, s, h, incoming, event);
    ReceiptsJoin(o, HistoryOf(h, incoming, event));
  }

  /** The opaque evidence of an event is kept without any condition. */
  lemma OpaqueKept(o: Order, s: State, incoming: seq<State>, event: string)
    ensures Nodes(FlatOf(Look(After(o, s, incoming).ledger, event)).malformed)
            == OpaqueInputs(HistoryOf(History.Snapshot(Look(s.ledger, event)), incoming, event))
  {
    var h := History.Snapshot(Look(s.ledger, event));
    LedgerHistory(o, s, h, incoming, event);
    OpaqueJoin(o, HistoryOf(h, incoming, event));
  }

  lemma {:induction false} HistoryIsMerge(h: History, incoming: seq<State>, event: string)
    requires h.Merge? || incoming != []
    ensures HistoryOf(h, incoming, event).Merge?
    decreases |incoming|
  {
    if incoming != [] {
      HistoryIsMerge(History.Merge(h, History.Snapshot(Look(incoming[0].ledger, event))), incoming[1..], event);
    }
  }

  /** After one write or more every attempt of an event stands exactly as high, in the order confirmed, not_sent, unknown,
      submitted, as the highest observation of it in what was stored and in all snapshots written. */
  lemma PhasesKept(o: Order, s: State, incoming: seq<State>, event: string, r: Row, rung: set<string>)
    requires incoming != [] && LedgerPhases.IsRung(rung)
    requires r in FlatOf(Look(After(o, s, incoming).ledger, event)).clean
    ensures LedgerPhases.Reaches(r, rung) <==>
      exists x | x in Inputs(HistoryOf(History.Snapshot(Look(s.ledger, event)), incoming, event)) ::
        Ledger.Key(x) == Ledger.Key(r) && LedgerPhases.Reaches(x, rung)
  {
    var h := History.Snapshot(Look(s.ledger, event));
    LedgerHistory(o, s, h, incoming, event);
    HistoryIsMerge(h, incoming, event);
    hide After, HistoryOf, Ledger.Key, Flatten, LedgerPhases.Reaches, LedgerPhases.IsRung;
    LedgerPhases.PhaseIsHighest(o, HistoryOf(h, incoming, event), r, rung);
  }
}
