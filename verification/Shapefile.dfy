/** The polygon shapefile parser of the fire basemap. */
module Shapefile {
  import opened Common
  import opened Bytes

  datatype Float = Finite(x: real) | NonFinite

  /** How eight little-endian bytes read as a double. */
  type Decoder = seq<Byte> -> Float

  datatype Point = Point(x: real, y: real)
  type Ring = seq<Point>

  datatype Refusal =
    | ShapeHeader | ShapeSignature | ShapeLength | ShapeType | ShapeBounds
    | RecordHeader | RecordOrder | PolygonRequired | RecordBounds | RecordDimensions
    | PartIndices | CoordinateBounds | ClosedRingRequired | GeometryBound | CompleteGeometry

  const FILE_CODE: int := 9994
  const VERSION: int := 1000
  const POLYGON: int := 5
  const MAX_RINGS: nat := 512
  const MAX_VERTICES: nat := 20_000
  const SLACK: real := 0.000_000_000_001

  /** One record: its bounding box and coordinates as raw bytes, and where its rings start. */
  datatype Record = Record(box: seq<Byte>, starts: seq<int>, points: seq<seq<Byte>>)

  function Size(r: Record): (n: nat)
    ensures n >= 52
  {
    52 + 4 * |r.starts| + 16 * |r.points|
  }

  predicate AllFinite(dec: Decoder, b: seq<Byte>, n: nat)
    requires |b| == 8 * n
  {
    forall i | 0 <= i < n :: dec(b[8 * i..8 * i + 8]).Finite?
  }

  predicate InBounds(dec: Decoder, raw: seq<Byte>)
    requires |raw| == 16
  {
    var x, y := dec(raw[..8]), dec(raw[8..]);
    && x.Finite? && y.Finite?
    && -180.0 - SLACK <= x.x <= 180.0 + SLACK && -90.0 - SLACK <= y.x <= 90.0 + SLACK
  }

  predicate PointsInBounds(dec: Decoder, points: seq<seq<Byte>>) {
    forall i | 0 <= i < |points| :: |points[i]| == 16 && InBounds(dec, points[i])
  }

  function Coordinates(dec: Decoder, points: seq<seq<Byte>>): (c: seq<Point>)
    requires PointsInBounds(dec, points)
    ensures |c| == |points|
  {
    seq(|points|, i requires 0 <= i < |points| => Point(dec(points[i][..8]).x, dec(points[i][8..]).x))
  }

  /** Part starts: the first is 0, they increase, and the last is before the end. */
  predicate PartStarts(starts: seq<int>, count: int) {
    && starts != [] && starts[0] == 0 && starts[|starts| - 1] < count
    && (forall i, j | 0 <= i < j < |starts| :: starts[i] < starts[j])
  }

  /** Where the ring that starts with part `k` ends. */
  function EndOf(starts: seq<int>, count: int, k: nat): (e: int)
    requires PartStarts(starts, count) && k < |starts|
    ensures 0 <= starts[k] < e <= count
  {
    if k + 1 < |starts| then starts[k + 1] else count
  }

  function Rings(coordinates: seq<Point>, starts: seq<int>): (rings: seq<Ring>)
    requires PartStarts(starts, |coordinates|)
    ensures |rings| == |starts|
  {
    seq(|starts|, k requires 0 <= k < |starts| => coordinates[starts[k]..EndOf(starts, |coordinates|, k)])
  }

  predicate Closed(ring: Ring) { |ring| >= 4 && ring[0] == ring[|ring| - 1] }

  // ----- one record

  /** `starts`: the part table of a record of sufficient length. */
  function ReadStarts(record: seq<Byte>, parts: nat): (s: seq<int>)
    requires 44 + 4 * parts <= |record|
    ensures |s| == parts
  {
    seq(parts, i requires 0 <= i < parts => Little(record[44 + 4 * i..48 + 4 * i]))
  }

  function ReadPoints(record: seq<Byte>, parts: nat, count: nat): (p: seq<seq<Byte>>)
    requires 44 + 4 * parts + 16 * count <= |record|
    ensures |p| == count && forall i | 0 <= i < count :: |p[i]| == 16
  {
    seq(count, i requires 0 <= i < count => record[44 + 4 * parts + 16 * i..60 + 4 * parts + 16 * i])
  }

  /** The checks on the content of one record, in their order. Every field read lies inside the record. */
  function ParseContent(record: seq<Byte>, dec: Decoder): Result<Record, Refusal>
    requires |record| >= 48
  {
    if Little(record[..4]) != POLYGON then Err(PolygonRequired)
    else if !AllFinite(dec, record[4..36], 4) then Err(RecordBounds)
    else
      var parts, count := Little(record[36..40]), Little(record[40..44]);
      if !(0 < parts <= 512 && 4 <= count <= 20_000 && |record| == 44 + 4 * parts + 16 * count) then Err(RecordDimensions)
      else
        var starts := ReadStarts(record, parts);
        if !PartStarts(starts, count) then Err(PartIndices)
        else
          var points := ReadPoints(record, parts, count);
          if !PointsInBounds(dec, points) then Err(CoordinateBounds) else Ok(Record(record[4..36], starts, points))
  }

  function ParseRecord(data: seq<Byte>, offset: nat, sequence: nat, dec: Decoder): (r: Result<Record, Refusal>)
    requires offset < |data|
    ensures r.Ok? ==> offset + Size(r.value) <= |data| && PointsInBounds(dec, r.value.points)
    ensures r.Ok? ==> PartStarts(r.value.starts, |r.value.points|)
  {
    if offset + 8 > |data| then Err(RecordHeader)
    else
      var number, words := Big(data[offset..offset + 4]), Big(data[offset + 4..offset + 8]);
      if !(number == sequence && words >= 24 && offset + 8 + words * 2 <= |data|) then Err(RecordOrder)
      else ParseContent(data[offset + 8..offset + 8 + words * 2], dec)
  }

  // ----- the whole file

  function RingsOf(r: Record, dec: Decoder): (rings: seq<Ring>)
    requires PointsInBounds(dec, r.points) && PartStarts(r.starts, |r.points|)
    ensures |rings| == |r.starts| >= 1
  {
    Rings(Coordinates(dec, r.points), r.starts)
  }

  function ParseFrom(data: seq<Byte>, offset: nat, sequence: nat, result: seq<Ring>, vertices: nat, dec: Decoder)
    : Result<seq<Ring>, Refusal>
    decreases |data| - offset
  {
    if offset >= |data| then
      if result != [] && offset == |data| then Ok(result) else Err(CompleteGeometry)
    else
      var record := ParseRecord(data, offset, sequence, dec);
      if record.Err? then Err(record.error)
      else
        var r := record.value;
        var rings := RingsOf(r, dec);
        if !(forall ring | ring in rings :: Closed(ring)) then Err(ClosedRingRequired)
        else if |result| + |rings| > MAX_RINGS || vertices + |r.points| > MAX_VERTICES then Err(GeometryBound)
        else ParseFrom(data, offset + Size(r), sequence + 1, result + rings, vertices + |r.points|, dec)
  }

  /** The checks on the main-file header, in their order. */
  function ParseHeader(data: seq<Byte>, dec: Decoder): Option<Refusal> {
    if !(|data| >= 100 && |data| % 2 == 0) then Some(ShapeHeader)
    else if !(Big(data[..4]) == FILE_CODE && data[4..24] == Zeros(20)) then Some(ShapeSignature)
    else if Big(data[24..28]) * 2 != |data| then Some(ShapeLength)
    else if !(Little(data[28..32]) == VERSION && Little(data[32..36]) == POLYGON) then Some(ShapeType)
    else if !AllFinite(dec, data[36..100], 8) then Some(ShapeBounds)
    else None
  }

  function Zeros(n: nat): (z: seq<Byte>)
    ensures |z| == n
  {
    seq(n, i => 0)
  }

  function Parse(data: seq<Byte>, dec: Decoder): Result<seq<Ring>, Refusal> {
    var refusal := ParseHeader(data, dec);
    if refusal.Some? then Err(refusal.value) else ParseFrom(data, 100, 1, [], 0, dec)
  }

  /** The inner loop: append the rings of one record, or none when one of them is not closed. */
  method AppendRings(before: seq<Ring>, coordinates: seq<Point>, starts: seq<int>) returns (r: Option<seq<Ring>>)
    requires PartStarts(starts, |coordinates|)
    ensures var rings := Rings(coordinates, starts);
            r == if forall ring | ring in rings :: Closed(ring) then Some(before + rings) else None
  {
    var result := before;
    ghost var rings := Rings(coordinates, starts);
    for k := 0 to |starts|
      invariant result == before + rings[..k] && forall ring | ring in rings[..k] :: Closed(ring)
    {
      var ring := coordinates[starts[k]..EndOf(starts, |coordinates|, k)];
      assert ring == rings[k] && rings[k] in rings && rings[..k + 1] == rings[..k] + [rings[k]];
      if !Closed(ring) {
        return None;
      }
      result := result + [ring];
    }
    assert rings[..|starts|] == rings;
    r := Some(result);
  }

  lemma ParseEnd(data: seq<Byte>, offset: nat, sequence: nat, result: seq<Ring>, vertices: nat, dec: Decoder)
    requires offset >= |data|
    ensures ParseFrom(data, offset, sequence, result, vertices, dec)
            == if result != [] && offset == |data| then Ok(result) else Err(CompleteGeometry)
  {
  }

  lemma ParseRefused(data: seq<Byte>, offset: nat, sequence: nat, result: seq<Ring>, vertices: nat, dec: Decoder)
    requires offset < |data|
    ensures ParseRecord(data, offset, sequence, dec).Err? ==>
              ParseFrom(data, offset, sequence, result, vertices, dec) == Err(ParseRecord(data, offset, sequence, dec).error)
  {
    hide ParseRecord;
  }

  lemma ParseStep(data: seq<Byte>, offset: nat, sequence: nat, result: seq<Ring>, vertices: nat, dec: Decoder, r: Record)
    requires offset < |data| && ParseRecord(data, offset, sequence, dec) == Ok(r)
    ensures var rings := Rings(Coordinates(dec, r.points), r.starts);
            ParseFrom(data, offset, sequence, result, vertices, dec)
            == if !(forall ring | ring in rings :: Closed(ring)) then Err(ClosedRingRequired)
               else if |result + rings| > MAX_RINGS || vertices + |r.points| > MAX_VERTICES then Err(GeometryBound)
               else ParseFrom(data, offset + Size(r), sequence + 1, result + rings, vertices + |r.points|, dec)
  {
    hide PartStarts, Rings, PointsInBounds, ParseRecord, Closed, Coordinates;
  }

  /** The parse from here is refused, or goes on after this record with these rings and vertices. */
  predicate Leads(data: seq<Byte>, offset: nat, sequence: nat, result: seq<Ring>, vertices: nat, dec: Decoder,
                  r: Result<seq<Ring>, Refusal>, step: nat, more: nat)
  {
    var whole := ParseFrom(data, offset, sequence, result, vertices, dec);
    if r.Err? then whole == Err(r.error)
    else step >= 52 && whole == ParseFrom(data, offset + step, sequence + 1, r.value, more, dec)
  }

  lemma RecordLeads(data: seq<Byte>, offset: nat, sequence: nat, result: seq<Ring>, vertices: nat, dec: Decoder, r: Record,
                    grown: Option<seq<Ring>>)
    requires offset < |data| && ParseRecord(data, offset, sequence, dec) == Ok(r)
    requires var rings := Rings(Coordinates(dec, r.points), r.starts);
             grown == if forall ring | ring in rings :: Closed(ring) then Some(result + rings) else None
    ensures grown.None? ==> Leads(data, offset, sequence, result, vertices, dec, Err(ClosedRingRequired), 0, vertices)
    ensures var more := vertices + |r.points|;
            grown.Some? ==>
              if |grown.value| > MAX_RINGS || more > MAX_VERTICES
              then Leads(data, offset, sequence, result, vertices, dec, Err(GeometryBound), 0, more)
              else Leads(data, offset, sequence, result, vertices, dec, Ok(grown.value), Size(r), more)
  {
    ParseStep(data, offset, sequence, result, vertices, dec, r);
    hide ParseFrom, ParseRecord, Rings, Coordinates, Closed, PartStarts, PointsInBounds;
  }

  /** One turn of the outer loop. */
  method NextRecord(data: seq<Byte>, offset: nat, sequence: nat, result: seq<Ring>, vertices: nat, dec: Decoder)
    returns (r: Result<seq<Ring>, Refusal>, step: nat, more: nat)
    requires offset < |data|
    ensures Leads(data, offset, sequence, result, vertices, dec, r, step, more)
  {
    step, more := 0, vertices;
    ParseRefused(data, offset, sequence, result, vertices, dec);
    var record := ParseRecord(data, offset, sequence, dec);
    hide ParseFrom, ParseRecord, Rings, Coordinates, Closed, PartStarts, PointsInBounds;
    if record.Err? {
      return Err(record.error), step, more;
    }
    hide *;
    var grown := AppendRings(result, Coordinates(dec, record.value.points), record.value.starts);
    RecordLeads(data, offset, sequence, result, vertices, dec, record.value, grown);
    if grown.None? {
      return Err(ClosedRingRequired), step, more;
    }
    more := vertices + |record.value.points|;
    if |grown.value| > MAX_RINGS || more > MAX_VERTICES {
      return Err(GeometryBound), step, more;
    }
    return Ok(grown.value), Size(record.value), more;
  }

  lemma LeadsParts(data: seq<Byte>, offset: nat, sequence: nat, result: seq<Ring>, vertices: nat, dec: Decoder,
                   r: Result<seq<Ring>, Refusal>, step: nat, more: nat)
    requires Leads(data, offset, sequence, result, vertices, dec, r, step, more)
    ensures r.Err? ==> ParseFrom(data, offset, sequence, result, vertices, dec) == Err(r.error)
    ensures r.Ok? ==> step >= 52 && ParseFrom(data, offset, sequence, result, vertices, dec)
                                    == ParseFrom(data, offset + step, sequence + 1, r.value, more, dec)
  {
    hide ParseFrom;
  }

  lemma ParseParts(data: seq<Byte>, dec: Decoder)
    ensures var refusal := ParseHeader(data, dec);
            Parse(data, dec) == if refusal.Some? then Err(refusal.value) else ParseFrom(data, 100, 1, [], 0, dec)
  {
    hide ParseFrom, ParseHeader;
  }

  /** `rings_from_shp` */
  method RingsFromShp(data: seq<Byte>, dec: Decoder) returns (r: Result<seq<Ring>, Refusal>)
    ensures r == Parse(data, dec)
  {
    hide *;
    ParseParts(data, dec);
    var header := ParseHeader(data, dec);
    if header.Some? {
      return Err(header.value);
    }
    var result: seq<Ring> := [];
    var offset: nat, sequence: nat, vertices: nat := 100, 1, 0;
    while offset < |data|
      invariant ParseFrom(data, offset, sequence, result, vertices, dec) == Parse(data, dec)
      decreases |data| - offset
    {
      var next, step, more := NextRecord(data, offset, sequence, result, vertices, dec);
      LeadsParts(data, offset, sequence, result, vertices, dec, next, step, more);
      if next.Err? {
        return Err(next.error);
      }
      result, vertices := next.value, more;
      offset := offset + step;
      sequence := sequence + 1;
    }
    ParseEnd(data, offset, sequence, result, vertices, dec);
    r := if result != [] && offset == |data| then Ok(result) else Err(CompleteGeometry);
  }
}
