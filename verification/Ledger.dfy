/** The publish ledger: how one event's nested evidence is flattened into attempts and opaque
    subtrees, and how two snapshots of it are merged.

    Rows are taken after `normalize_passive_snapshots` and without their passive observations. A
    fingerprint is modelled by the value it is taken of: equal fingerprints mean equal values. */
module Ledger {
  import opened Common
  import opened Sorting

  datatype Json =
    | Null
    | Bool(b: bool)
    | Number(n: real)
    | Text(s: string)
    | List(items: seq<Json>)
    | Dict(fields: map<string, Json>)

  /** The fields of one attempt, without nested evidence. */
  type Row = map<string, Json>

  const CONFLICTS := "attempt_conflicts"
  const EVIDENCE := "preserved_evidence_only"
  const TWEET := "tweet_id"

  function Get(row: Row, key: string): Json {
    if key in row then row[key] else Null
  }

  predicate Truthy(v: Json) {
    match v
    case Null => false
    case Bool(b) => b
    case Number(n) => n != 0.0
    case Text(s) => s != ""
    case List(items) => items != []
    case Dict(fields) => fields != map[]
  }

  // ----- flattening

  predicate AllDicts(items: seq<Json>) {
    forall v | v in items :: v.Dict?
  }

  /** The nested evidence of a node; none when the field is missing. */
  function Nested(fields: Row): Json {
    if CONFLICTS in fields then fields[CONFLICTS] else List([])
  }

  /** A node whose nested evidence can be walked. */
  predicate Readable(node: Json) {
    node.Dict? && Nested(node.fields).List? && AllDicts(Nested(node.fields).items)
  }

  /** A holder of evidence only, not an attempt. */
  predicate ContainerOnly(fields: Row) {
    fields.Keys == {EVIDENCE, CONFLICTS} && fields[EVIDENCE] == Bool(true)
  }

  /** What an unreadable node is kept as: itself, or a bare value wrapped once. */
  function Opaque(node: Json): Json {
    if node.Dict? then node else Dict(map["phase" := Text("unknown"), CONFLICTS := List([node])])
  }

  function Bare(fields: Row): Row {
    fields - {CONFLICTS}
  }

  /** The attempt of a readable node, if it is one. */
  function Own(fields: Row): seq<Row> {
    if ContainerOnly(fields) then [] else [Bare(fields)]
  }

  datatype Flat = Flat(clean: seq<Row>, malformed: seq<Json>) {
    function Then(next: Flat): Flat { Flat(clean + next.clean, malformed + next.malformed) }
  }

  function Size(node: Json): nat
    decreases node, 1
  {
    1 + if node.Dict? && CONFLICTS in node.fields && node.fields[CONFLICTS].List? then Sizes(node.fields[CONFLICTS].items) else 0
  }

  function Sizes(nodes: seq<Json>): nat
    decreases nodes, 0
  {
    if nodes == [] then 0 else Size(nodes[0]) + Sizes(nodes[1..])
  }

  lemma {:induction false} SizesConcat(a: seq<Json>, b: seq<Json>)
    ensures Sizes(a + b) == Sizes(a) + Sizes(b)
  {
    if a == [] {
      assert a + b == b;
    } else {
      SizesConcat(a[1..], b);
      assert (a + b)[1..] == a[1..] + b;
    }
  }

  /** The work list after its last node was taken off; each turn removes at least one node from it. */
  function Rest(pending: seq<Json>): (r: seq<Json>)
    requires pending != []
    ensures Sizes(r) < Sizes(pending)
  {
    var node, others := pending[|pending| - 1], pending[..|pending| - 1];
    SizesConcat(others, [node]);
    assert pending == others + [node] && Sizes([node]) == Size(node) + Sizes([]);
    if Readable(node) then
      SizesConcat(others, Nested(node.fields).items);
      others + Nested(node.fields).items
    else others
  }

  function Turn(node: Json): Flat {
    if Readable(node) then Flat(Own(node.fields), []) else Flat([], [Opaque(node)])
  }

  /** What the work list yields, in the order in which it is worked off. */
  function Flatten(pending: seq<Json>): Flat
    decreases Sizes(pending)
  {
    if pending == [] then Flat([], [])
    else Turn(pending[|pending| - 1]).Then(Flatten(Rest(pending)))
  }

  /** Separate the attempts of one ledger entry from opaque evidence. */
  method AttemptRows(entry: Json) returns (clean: seq<Row>, malformed: seq<Json>)
    ensures Flat(clean, malformed) == Flatten([entry])
  {
    clean, malformed := [], [];
    var pending := [entry];
    while pending != []
      invariant Flat(clean, malformed).Then(Flatten(pending)) == Flatten([entry])
      decreases Sizes(pending)
    {
      ghost var before := pending;
      ghost var done := Flat(clean, malformed);
      var attempt := pending[|pending| - 1];
      pending := pending[..|pending| - 1];
      if !attempt.Dict? {
        malformed := malformed + [Dict(map["phase" := Text("unknown"), CONFLICTS := List([attempt])])];
      } else {
        var conflicts := Nested(attempt.fields);
        if !conflicts.List? || exists child | child in conflicts.items :: !child.Dict? {
          malformed := malformed + [attempt];
        } else {
          if !ContainerOnly(attempt.fields) {
            clean := clean + [attempt.fields - {CONFLICTS}];
          }
          pending := pending + conflicts.items;
        }
      }
      assert pending == Rest(before);
      ThenAssoc(done, Turn(attempt), Flatten(pending));
      assert Flat(clean, malformed) == done.Then(Turn(attempt));
    }
  }

  lemma ThenAssoc(a: Flat, b: Flat, c: Flat)
    ensures a.Then(b).Then(c) == a.Then(b.Then(c))
  {
    assert a.clean + b.clean + c.clean == a.clean + (b.clean + c.clean);
    assert a.malformed + b.malformed + c.malformed == a.malformed + (b.malformed + c.malformed);
  }

  // ----- one attempt

  predicate HasTweet(row: Row) { Truthy(Get(row, TWEET)) }

  /** A legacy row carries no intent, and so nothing that says two of them are one attempt. */
  predicate Identified(row: Row) {
    Get(row, "intent_id").Text? && Get(row, "intent_id") != Text("")
  }

  /** The slot of an attempt: its identity, or the whole row when it has none. */
  function Key(row: Row): Json {
    if Identified(row) then
      Dict(map["intent_id" := Get(row, "intent_id"), "at" := Get(row, "at"),
               "content_revision" := Get(row, "content_revision"), "text_sha256" := Get(row, "text_sha256"),
               "evidence_sha256" := Get(row, "evidence_sha256"), "text" := Get(row, "text")])
    else Dict(map["unidentified_attempt" := Dict(row)])
  }

  function Rank(row: Row): int {
    if HasTweet(row) then 4
    else match Get(row, "phase")
      case Text(s) => (
        if s == "confirmed" then 4 else if s == "not_sent" then 3
        else if s == "unknown" then 2 else if s == "submitted" then 1 else 0)
      case _ => 0
  }

  /** Two observations of one attempt: the higher rank wins field by field, the later one on a tie. */
  function Overlay(existing: Row, row: Row): Row {
    if Rank(row) >= Rank(existing) then existing + row else row + existing
  }

  // ----- one event

  /** A Python dict: its keys in insertion order. */
  datatype Attempts = Attempts(order: seq<Json>, rows: map<Json, Row>) {
    ghost predicate Valid() {
      && (forall k :: k in order <==> k in rows)
      && forall i, j | 0 <= i < j < |order| :: order[i] != order[j]
    }

    function Set(key: Json, row: Row): Attempts {
      Attempts(if key in rows then order else order + [key], rows[key := row])
    }

    function Values(): seq<Row>
      requires Valid()
    {
      seq(|order|, i requires 0 <= i < |order| => assert order[i] in order; rows[order[i]])
    }
  }

  /** Where a row goes: its own slot, or one of its own beside it when its receipt contradicts the slot's. */
  function Record(attempts: Attempts, row: Row): Attempts {
    var key := Key(row);
    if key !in attempts.rows then attempts.Set(key, row)
    else
      var existing := attempts.rows[key];
      if HasTweet(existing) && HasTweet(row) && Get(existing, TWEET) != Get(row, TWEET)
      then attempts.Set(Dict(row), row)
      else attempts.Set(key, Overlay(existing, row))
  }

  function RecordAll(attempts: Attempts, rows: seq<Row>): Attempts
    decreases |rows|
  {
    if rows == [] then attempts else RecordAll(Record(attempts, rows[0]), rows[1..])
  }

  /** What the sort needs of a row: its time, and the position of its fingerprint among all. */
  datatype Order = Order(time: Row -> int, place: Json -> int)

  predicate RowLe(o: Order, a: Row, b: Row) {
    if HasTweet(a) != HasTweet(b) then HasTweet(b)
    else if o.time(a) != o.time(b) then o.time(a) < o.time(b)
    else if Rank(a) != Rank(b) then Rank(a) < Rank(b)
    else o.place(Dict(a)) <= o.place(Dict(b))
  }

  /** `_unique_snapshots`, ordered by fingerprint. */
  function Unique(nodes: seq<Json>): seq<Json> {
    if nodes == [] then []
    else if nodes[0] in nodes[1..] then Unique(nodes[1..]) else [nodes[0]] + Unique(nodes[1..])
  }

  function Evidence(o: Order, rows: seq<Row>, malformed: seq<Json>): seq<Json> {
    Sort(Unique(AsDicts(rows) + malformed), (a, b) => o.place(a) <= o.place(b))
  }

  function AsDicts(rows: seq<Row>): seq<Json> {
    seq(|rows|, i requires 0 <= i < |rows| => Dict(rows[i]))
  }

  /** The merged entry: the greatest row, with everything else below it. */
  function Entry(o: Order, attempts: Attempts, malformed: seq<Json>): Json
    requires attempts.Valid()
  {
    var sorted := Sort(attempts.Values(), (a, b) => RowLe(o, a, b));
    var rows := if sorted == [] then [] else sorted[..|sorted| - 1];
    var primary := if sorted == [] then map[EVIDENCE := Bool(true)] else sorted[|sorted| - 1];
    if rows == [] && malformed == [] then Dict(primary)
    else Dict(primary[CONFLICTS := List(Evidence(o, rows, malformed))])
  }

  function FlatOf(entry: Option<Json>): Flat {
    if entry.None? then Flat([], []) else Flatten([entry.value])
  }

  lemma {:induction false} RecordAllValid(attempts: Attempts, rows: seq<Row>)
    requires attempts.Valid()
    ensures RecordAll(attempts, rows).Valid()
    decreases |rows|
  {
    if rows != [] {
      RecordAllValid(Record(attempts, rows[0]), rows[1..]);
    }
  }

  const NO_ATTEMPTS := Attempts([], map[])

  /** One event of `_merge_publish_ledger`. */
  function MergeEvent(o: Order, base: Option<Json>, nxt: Option<Json>): Json {
    var flat := FlatOf(base).Then(FlatOf(nxt));
    RecordAllValid(NO_ATTEMPTS, flat.clean);
    Entry(o, RecordAll(NO_ATTEMPTS, flat.clean), flat.malformed)
  }

  function Look(ledger: map<string, Json>, event: string): Option<Json> {
    if event in ledger then Some(ledger[event]) else None
  }

  /** `_merge_publish_ledger` on two ledgers; anything that is not a ledger counts as an empty one. */
  function MergeLedger(o: Order, base: map<string, Json>, nxt: map<string, Json>): map<string, Json> {
    map event | event in base.Keys + nxt.Keys :: MergeEvent(o, Look(base, event), Look(nxt, event))
  }

  /** The loop over the attempts of one event, with the dict as its keys in order and its values. */
  method MergeRows(clean: seq<Row>) returns (attempts: Attempts)
    ensures attempts == RecordAll(NO_ATTEMPTS, clean)
  {
    var order: seq<Json>, rows: map<Json, Row> := [], map[];
    for i := 0 to |clean|
      invariant RecordAll(Attempts(order, rows), clean[i..]) == RecordAll(NO_ATTEMPTS, clean)
    {
      var row := clean[i];
      assert clean[i..][0] == row && clean[i..][1..] == clean[i + 1..];
      var key := Key(row);
      if key !in rows {
        order, rows := order + [key], rows[key := row];
      } else {
        var existing := rows[key];
        if HasTweet(existing) && HasTweet(row) && Get(existing, TWEET) != Get(row, TWEET) {
          var alternate := Dict(row);
          if alternate !in rows {
            order := order + [alternate];
          }
          rows := rows[alternate := row];
        } else if Rank(row) >= Rank(existing) {
          rows := rows[key := existing + row];
        } else {
          rows := rows[key := row + existing];
        }
      }
    }
    attempts := Attempts(order, rows);
  }

  /** One event: the attempts and the opaque evidence of both entries, merged. */
  method MergeEntries(o: Order, base: Option<Json>, nxt: Option<Json>) returns (merged: Json)
    ensures merged == MergeEvent(o, base, nxt)
  {
    var clean: seq<Row>, malformed: seq<Json> := [], [];
    if base.Some? {
      clean, malformed := AttemptRows(base.value);
    }
    if nxt.Some? {
      var rows, unread := AttemptRows(nxt.value);
      clean, malformed := clean + rows, malformed + unread;
    }
    assert Flat(clean, malformed) == FlatOf(base).Then(FlatOf(nxt));
    var attempts := MergeRows(clean);
    RecordAllValid(NO_ATTEMPTS, clean);
    merged := Entry(o, attempts, malformed);
  }

  /** The merge itself, event by event. */
  method MergePublishLedger(o: Order, base: map<string, Json>, nxt: map<string, Json>) returns (merged: map<string, Json>)
    ensures merged == MergeLedger(o, base, nxt)
  {
    hide MergeEvent;
    merged := map[];
    var events := base.Keys + nxt.Keys;
    while events != {}
      invariant events <= base.Keys + nxt.Keys
      invariant merged.Keys == base.Keys + nxt.Keys - events
      invariant forall event | event in merged :: merged[event] == MergeEvent(o, Look(base, event), Look(nxt, event))
      decreases events
    {
      var event :| event in events;
      var entry := MergeEntries(o, Look(base, event), Look(nxt, event));
      merged := merged[event := entry];
      events := events - {event};
    }
  }
}
