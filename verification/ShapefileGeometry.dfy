/** The parser and drawings: every drawing within the limits can be handed over in a file, and nothing else comes out
    of one. Both directions are about rings and numbers only. */
module ShapefileGeometry {
  import opened Common
  import opened Bytes
  import opened Shapefile
  import opened ShapefileCodec
  import opened ShapefileFiles

  /** A coordinate pair as it is stored. */
  type Raw = seq<Byte>

  predicate Between(f: Float, low: real, high: real) {
    match f
    case Finite(x) => !(x < low) && !(high < x)
    case NonFinite => false
  }

  /** On the map, up to a millionth of a millionth of a degree. */
  predicate Placed(dec: Decoder, p: Raw) {
    && |p| == 16
    && Between(dec(p[..8]), -180.000_000_000_001, 180.000_000_000_001)
    && Between(dec(p[8..]), -90.000_000_000_001, 90.000_000_000_001)
  }

  function PlaceOf(dec: Decoder, p: Raw): Point
    requires Placed(dec, p)
  {
    Point(dec(p[..8]).x, dec(p[8..]).x)
  }

  /** A ring that can be drawn: at least four points on the map, and the last is the first again. */
  predicate Drawable(dec: Decoder, ring: seq<Raw>) {
    && |ring| > 3 && (forall i | 0 <= i < |ring| :: Placed(dec, ring[i]))
    && PlaceOf(dec, ring[0]) == PlaceOf(dec, ring[|ring| - 1])
  }

  predicate AllDrawable(dec: Decoder, rings: seq<seq<Raw>>) { forall k | 0 <= k < |rings| :: Drawable(dec, rings[k]) }

  function Drawn(dec: Decoder, ring: seq<Raw>): Ring
    requires forall i | 0 <= i < |ring| :: Placed(dec, ring[i])
  {
    seq(|ring|, i requires 0 <= i < |ring| => PlaceOf(dec, ring[i]))
  }

  function AllDrawn(dec: Decoder, rings: seq<seq<Raw>>): (d: seq<Ring>)
    requires AllDrawable(dec, rings)
    ensures |d| == |rings|
  {
    seq(|rings|, k requires 0 <= k < |rings| => Drawn(dec, rings[k]))
  }

  // ----- one record from its rings

  function PointsOf(rings: seq<seq<Raw>>): seq<Raw> { if rings == [] then [] else rings[0] + PointsOf(rings[1..]) }

  function StartsOf(rings: seq<seq<Raw>>, from: nat): seq<int> {
    if rings == [] then [] else [from] + StartsOf(rings[1..], from + |rings[0]|)
  }

  /** The starts ascend from the first place. */
  lemma {:induction false} StartsAscend(rings: seq<seq<Raw>>, from: nat)
    requires forall k | 0 <= k < |rings| :: rings[k] != []
    ensures var s := StartsOf(rings, from);
      && |s| == |rings| && (s != [] ==> s[0] == from)
      && (forall k | 0 <= k < |s| :: from <= s[k] < from + |PointsOf(rings)|)
      && (forall i, j | 0 <= i < j < |s| :: s[i] < s[j])
  {
    if rings != [] {
      var first, rest := rings[0], rings[1..];
      assert forall k | 0 <= k < |rest| :: rest[k] == rings[k + 1];
      StartsAscend(rest, from + |first|);
      var s, t := StartsOf(rings, from), StartsOf(rest, from + |first|);
      assert s == [from] + t && |PointsOf(rings)| == |first| + |PointsOf(rest)|;
      hide StartsOf, PointsOf;
      assert forall k | 0 < k < |s| :: s[k] == t[k - 1];
    }
  }

  /** Where the ring after ring `k` starts, or the end. */
  function Next(s: seq<int>, end: int, k: nat): int { if k + 1 < |s| then s[k + 1] else end }

  /** The points from `b` up to `e` are this ring; places count from `from`. */
  predicate Cut(p: seq<Raw>, from: int, b: int, e: int, ring: seq<Raw>) {
    from <= b <= e <= from + |p| && p[b - from..e - from] == ring
  }

  lemma CutBehind(first: seq<Raw>, q: seq<Raw>, from: int, b: int, e: int, ring: seq<Raw>)
    requires Cut(q, from + |first|, b, e, ring)
    ensures Cut(first + q, from, b, e, ring)
  {
    Behind(first, q, b - from - |first|, e - from - |first|);
  }

  lemma CutFirst(first: seq<Raw>, q: seq<Raw>, from: int)
    ensures Cut(first + q, from, from, from + |first|, first)
  {
  }

  /** Every ring is the points from its start to the next. */
  lemma {:induction false} StartsCut(rings: seq<seq<Raw>>, from: nat, k: nat)
    requires k < |rings|
    ensures var s, p := StartsOf(rings, from), PointsOf(rings);
      |s| == |rings| && Cut(p, from, s[k], Next(s, from + |p|, k), rings[k])
  {
    var first, rest := rings[0], rings[1..];
    var s, t := StartsOf(rings, from), StartsOf(rest, from + |first|);
    var p, q := PointsOf(rings), PointsOf(rest);
    assert s == [from] + t && p == first + q;
    StartsSize(rest, from + |first|);
    if k > 0 {
      StartsCut(rest, from + |first|, k - 1);
      hide StartsOf, PointsOf, Cut;
      CutBehind(first, q, from, t[k - 1], Next(t, from + |p|, k - 1), rings[k]);
    } else {
      hide StartsOf, PointsOf, Cut;
      CutFirst(first, q, from);
    }
  }

  lemma {:induction false} StartsSize(rings: seq<seq<Raw>>, from: nat)
    ensures |StartsOf(rings, from)| == |rings| && (rings != [] ==> StartsOf(rings, from)[0] == from)
  {
    if rings != [] {
      StartsSize(rings[1..], from + |rings[0]|);
    }
  }

  lemma Behind(a: seq<Raw>, b: seq<Raw>, i: nat, j: nat)
    requires i <= j <= |b|
    ensures (a + b)[|a| + i..|a| + j] == b[i..j]
  {
  }

  lemma {:induction false} PointsPlaced(dec: Decoder, rings: seq<seq<Raw>>)
    requires AllDrawable(dec, rings)
    ensures forall i | 0 <= i < |PointsOf(rings)| :: Placed(dec, PointsOf(rings)[i])
    ensures |PointsOf(rings)| >= 4 * |rings|
  {
    hide Placed;
    if rings != [] {
      assert Drawable(dec, rings[0]);
      assert forall k | 0 <= k < |rings| - 1 :: rings[1..][k] == rings[k + 1];
      hide Drawable;
      PointsPlaced(dec, rings[1..]);
    }
  }

  function RecordOf(box: seq<Byte>, rings: seq<seq<Raw>>): Record { Record(box, StartsOf(rings, 0), PointsOf(rings)) }

  lemma PlacedInBounds(dec: Decoder, p: Raw)
    ensures Placed(dec, p) <==> |p| == 16 && InBounds(dec, p)
  {
  }

  lemma RecordFits(dec: Decoder, rings: seq<seq<Raw>>)
    requires rings != [] && AllDrawable(dec, rings)
    ensures var r := RecordOf([], rings);
      && PartStarts(r.starts, |r.points|) && PointsInBounds(dec, r.points) && |r.starts| == |rings|
  {
    assert forall k | 0 <= k < |rings| :: Drawable(dec, rings[k]) && rings[k] != [];
    hide Drawable, Placed, InBounds, StartsOf, PointsOf;
    StartsAscend(rings, 0);
    PointsPlaced(dec, rings);
    forall i | 0 <= i < |PointsOf(rings)| ensures |PointsOf(rings)[i]| == 16 && InBounds(dec, PointsOf(rings)[i]) {
      PlacedInBounds(dec, PointsOf(rings)[i]);
    }
  }

  /** The record of some rings gives them back. */
  lemma RecordGivesBack(dec: Decoder, rings: seq<seq<Raw>>)
    requires rings != [] && AllDrawable(dec, rings)
    ensures var r := RecordOf([], rings);
      PartStarts(r.starts, |r.points|) && PointsInBounds(dec, r.points) && RingsOf(r, dec) == AllDrawn(dec, rings)
  {
    RecordFits(dec, rings);
    var all := RingsOf(RecordOf([], rings), dec);
    forall k | 0 <= k < |rings| ensures all[k] == Drawn(dec, rings[k]) {
      RingGivenBack(dec, rings, k);
    }
    assert forall k | 0 <= k < |rings| :: Drawable(dec, rings[k]);
    hide Drawable, Placed, RingsOf, Drawn, StartsOf, PointsOf, PartStarts, PointsInBounds;
    assert all == AllDrawn(dec, rings);
  }

  lemma RingGivenBack(dec: Decoder, rings: seq<seq<Raw>>, k: nat)
    requires k < |rings| && AllDrawable(dec, rings)
    ensures Drawable(dec, rings[k])
    ensures var r := RecordOf([], rings);
      && PartStarts(r.starts, |r.points|) && PointsInBounds(dec, r.points) && |RingsOf(r, dec)| == |rings|
      && RingsOf(r, dec)[k] == Drawn(dec, rings[k])
  {
    var r := RecordOf([], rings);
    assert Drawable(dec, rings[k]);
    hide Drawable, Placed, InBounds, StartsOf, PointsOf, PartStarts, PointsInBounds, RingsOf, Coordinates;
    RecordFits(dec, rings);
    StartsCut(rings, 0, k);
    RingIsCut(r, dec, k);
    CoordinatesCut(dec, r.points, r.starts[k], Next(r.starts, |r.points|, k));
  }

  lemma RingIsCut(r: Record, dec: Decoder, k: nat)
    requires PointsInBounds(dec, r.points) && PartStarts(r.starts, |r.points|) && k < |r.starts|
    ensures 0 <= r.starts[k] <= Next(r.starts, |r.points|, k) <= |r.points| && |RingsOf(r, dec)| == |r.starts|
    ensures RingsOf(r, dec)[k] == Coordinates(dec, r.points)[r.starts[k]..Next(r.starts, |r.points|, k)]
  {
    assert EndOf(r.starts, |r.points|, k) == Next(r.starts, |r.points|, k);
    hide PartStarts, PointsInBounds, Coordinates;
  }

  lemma CoordinatesCut(dec: Decoder, points: seq<Raw>, s: nat, e: nat)
    requires PointsInBounds(dec, points) && s <= e <= |points|
    ensures (forall i | 0 <= i < e - s :: Placed(dec, points[s..e][i]))
    ensures Coordinates(dec, points)[s..e] == Drawn(dec, points[s..e])
  {
    forall i | 0 <= i < |points| ensures Placed(dec, points[i]) {
      PlacedInBounds(dec, points[i]);
    }
    hide Placed, InBounds;
    var c := Coordinates(dec, points);
    forall i | 0 <= i < e - s ensures c[s..e][i] == PlaceOf(dec, points[s + i]) {
      assert c[s..e][i] == c[s + i];
    }
  }

  // ----- numbers in the headers

  /** Each of the stored numbers is one. */
  predicate Numbers(dec: Decoder, doubles: seq<seq<Byte>>) {
    forall i | 0 <= i < |doubles| :: |doubles[i]| == 8 && dec(doubles[i]).Finite?
  }

  lemma {:induction false} NumbersFinite(dec: Decoder, doubles: seq<seq<Byte>>)
    requires Numbers(dec, doubles)
    ensures |Flat(doubles)| == 8 * |doubles| && AllFinite(dec, Flat(doubles), |doubles|)
  {
    if doubles != [] {
      var rest := doubles[1..];
      assert forall i | 0 <= i < |rest| :: rest[i] == doubles[i + 1];
      NumbersFinite(dec, rest);
      var a, b := doubles[0], Flat(rest);
      hide Flat, Numbers;
      assert |a| == 8 && dec(a).Finite?;
      forall i | 0 <= i < |doubles| ensures dec((a + b)[8 * i..8 * i + 8]).Finite? {
        if i == 0 {
          assert (a + b)[0..8] == a;
        } else {
          Behind8(a, b, i - 1);
        }
      }
    }
  }

  lemma Behind8(a: seq<Byte>, b: seq<Byte>, i: nat)
    requires |a| == 8 && 8 * i + 8 <= |b|
    ensures (a + b)[8 * (i + 1)..8 * (i + 1) + 8] == b[8 * i..8 * i + 8]
  {
  }

  // ----- every drawing can be handed over

  /** The rings of one record, and the four numbers of its bounding box, which are not looked at further. */
  datatype Part = Part(box: seq<seq<Byte>>, rings: seq<seq<Raw>>)

  predicate Sketch(dec: Decoder, part: Part) {
    |part.box| == 4 && Numbers(dec, part.box) && part.rings != [] && AllDrawable(dec, part.rings)
  }

  predicate Sketches(dec: Decoder, parts: seq<Part>) { forall i | 0 <= i < |parts| :: Sketch(dec, parts[i]) }

  function Picture(dec: Decoder, parts: seq<Part>): seq<Ring>
    requires Sketches(dec, parts)
  {
    if parts == [] then []
    else
      assert Sketch(dec, parts[0]);
      AllDrawn(dec, parts[0].rings) + Picture(dec, parts[1..])
  }

  function Corners(rings: seq<Ring>): nat { if rings == [] then 0 else |rings[0]| + Corners(rings[1..]) }

  function Records(parts: seq<Part>): seq<Record> {
    if parts == [] then [] else [RecordOf(Flat(parts[0].box), parts[0].rings)] + Records(parts[1..])
  }

  lemma {:induction false} CornersAdd(a: seq<Ring>, b: seq<Ring>)
    ensures Corners(a + b) == Corners(a) + Corners(b)
  {
    if a == [] {
      assert a + b == b;
    } else {
      CornersAdd(a[1..], b);
      assert (a + b)[1..] == a[1..] + b;
    }
  }

  lemma {:induction false} CornersJoined(rings: seq<Ring>)
    ensures Corners(rings) == |Joined(rings)|
  {
    if rings != [] {
      CornersJoined(rings[1..]);
    }
  }

  lemma DrawnClosed(dec: Decoder, rings: seq<seq<Raw>>)
    requires AllDrawable(dec, rings)
    ensures forall ring | ring in AllDrawn(dec, rings) :: Closed(ring)
  {
    hide Placed;
    forall ring | ring in AllDrawn(dec, rings) ensures Closed(ring) {
      var k :| 0 <= k < |rings| && AllDrawn(dec, rings)[k] == ring;
      assert Drawable(dec, rings[k]);
    }
  }

  /** One part within the limits makes a well-formed record of its rings. */
  lemma PartGood(dec: Decoder, part: Part)
    requires Sketch(dec, part) && |part.rings| <= 512 && Corners(AllDrawn(dec, part.rings)) <= 20_000
    ensures var r := RecordOf(Flat(part.box), part.rings);
      && Good(r, dec) && PointsInBounds(dec, r.points) && PartStarts(r.starts, |r.points|)
      && RingsOf(r, dec) == AllDrawn(dec, part.rings) && |r.points| == Corners(AllDrawn(dec, part.rings))
  {
    var r, bare := RecordOf(Flat(part.box), part.rings), RecordOf([], part.rings);
    NumbersFinite(dec, part.box);
    RecordFits(dec, part.rings);
    RecordGivesBack(dec, part.rings);
    DrawnClosed(dec, part.rings);
    PointsPlaced(dec, part.rings);
    assert RingsOf(r, dec) == RingsOf(bare, dec);
    RingsJoin(Coordinates(dec, r.points), r.starts, 0);
    assert RingsOf(r, dec)[0..] == RingsOf(r, dec);
    CornersJoined(RingsOf(r, dec));
    hide Corners, AllDrawable, AllDrawn, Closed, PointsInBounds, PartStarts, RingsOf, StartsOf, PointsOf, Joined, Numbers;
  }

  lemma PictureSplits(dec: Decoder, parts: seq<Part>)
    requires Sketches(dec, parts) && parts != []
    ensures Sketch(dec, parts[0]) && Sketches(dec, parts[1..])
    ensures Picture(dec, parts) == AllDrawn(dec, parts[0].rings) + Picture(dec, parts[1..])
    ensures Corners(Picture(dec, parts)) == Corners(AllDrawn(dec, parts[0].rings)) + Corners(Picture(dec, parts[1..]))
    ensures Records(parts) == [RecordOf(Flat(parts[0].box), parts[0].rings)] + Records(parts[1..])
  {
    assert Sketch(dec, parts[0]);
    hide Sketch;
    assert forall i | 0 <= i < |parts| - 1 :: parts[1..][i] == parts[i + 1];
    CornersAdd(AllDrawn(dec, parts[0].rings), Picture(dec, parts[1..]));
    hide AllDrawn, Corners, RecordOf;
  }

  lemma AllRingsStep(r: Record, records: seq<Record>, dec: Decoder)
    requires Good(r, dec) && AllGood(records, dec) && PointsInBounds(dec, r.points) && PartStarts(r.starts, |r.points|)
    ensures AllGood([r] + records, dec)
    ensures AllRings([r] + records, dec) == RingsOf(r, dec) + AllRings(records, dec)
    ensures Vertices([r] + records) == |r.points| + Vertices(records)
  {
    hide Good, RingsOf, PointsInBounds, PartStarts;
    var all := [r] + records;
    assert all[0] == r && all[1..] == records;
  }

  lemma {:induction false} PartsGood(dec: Decoder, parts: seq<Part>)
    requires Sketches(dec, parts) && |Picture(dec, parts)| <= 512 && Corners(Picture(dec, parts)) <= 20_000
    ensures AllGood(Records(parts), dec) && AllRings(Records(parts), dec) == Picture(dec, parts)
    ensures Vertices(Records(parts)) == Corners(Picture(dec, parts)) && |Records(parts)| == |parts|
    decreases |parts|
  {
    if parts != [] {
      PictureSplits(dec, parts);
      var r := RecordOf(Flat(parts[0].box), parts[0].rings);
      hide *;
      PartsGood(dec, parts[1..]);
      PartGood(dec, parts[0]);
      AllRingsStep(r, Records(parts[1..]), dec);
    }
  }

  /** MAIN RESULT. Whatever can be drawn within 512 rings and 20000 points, divided into parts in any way, has a file that
      is accepted and gives exactly these rings in this order. */
  lemma DrawingReads(dec: Decoder, bounds: seq<seq<Byte>>, parts: seq<Part>) returns (data: seq<Byte>)
    requires |bounds| == 8 && Numbers(dec, bounds) && parts != [] && Sketches(dec, parts)
    requires |Picture(dec, parts)| <= 512 && Corners(Picture(dec, parts)) <= 20_000
    ensures Parse(data, dec) == Ok(Picture(dec, parts))
  {
    var s := Shape(Flat(bounds), Records(parts));
    hide *;
    NumbersFinite(dec, bounds);
    PartsGood(dec, parts);
    ValidParts(s, dec);
    Limits();
    ParserInvertsEncoder(s, dec);
    data := Encode(s, dec);
  }

  // ----- nothing else comes out

  /** A point that was placed within the limits. */
  predicate OnMap(p: Point) {
    && -180.000_000_000_001 <= p.x && p.x <= 180.000_000_000_001
    && -90.000_000_000_001 <= p.y && p.y <= 90.000_000_000_001
  }

  /** A ring of at least four points on the map that ends where it began. */
  predicate Loop(ring: Ring) {
    |ring| > 3 && ring[0] == ring[|ring| - 1] && forall i | 0 <= i < |ring| :: OnMap(ring[i])
  }

  lemma RecordLoops(r: Record, dec: Decoder)
    requires Good(r, dec)
    ensures PointsInBounds(dec, r.points) && PartStarts(r.starts, |r.points|)
    ensures (forall ring | ring in RingsOf(r, dec) :: Loop(ring)) && Corners(RingsOf(r, dec)) == |r.points|
  {
    GoodFacts(r, dec);
    RecordRings(r, dec);
    CornersJoined(RingsOf(r, dec));
    forall ring | ring in RingsOf(r, dec) ensures forall i | 0 <= i < |ring| :: OnMap(ring[i]) {
      RingOnMap(r, dec, ring);
    }
    assert |Coordinates(dec, r.points)| == |r.points|;
    hide Good, RingsOf, OnMap, Corners, Joined, PointsInBounds, PartStarts, Coordinates;
  }

  lemma RingOnMap(r: Record, dec: Decoder, ring: Ring)
    requires PointsInBounds(dec, r.points) && PartStarts(r.starts, |r.points|) && ring in RingsOf(r, dec)
    ensures forall i | 0 <= i < |ring| :: OnMap(ring[i])
  {
    var c := Coordinates(dec, r.points);
    assert forall i | 0 <= i < |c| :: OnMap(c[i]);
    var k :| 0 <= k < |r.starts| && ring == RingsOf(r, dec)[k];
    var s, e := r.starts[k], EndOf(r.starts, |c|, k);
    assert ring == c[s..e];
    hide OnMap, RingsOf, Coordinates, PointsInBounds, PartStarts, EndOf;
  }

  lemma {:induction false} RecordsLoop(records: seq<Record>, dec: Decoder)
    requires AllGood(records, dec)
    ensures forall ring | ring in AllRings(records, dec) :: Loop(ring)
    ensures Corners(AllRings(records, dec)) == Vertices(records)
    decreases |records|
  {
    if records != [] {
      GoodFirst(records, dec);
      RecordLoops(records[0], dec);
      hide Good, Loop, RingsOf, Corners, PointsInBounds, PartStarts;
      RecordsLoop(records[1..], dec);
      CornersAdd(RingsOf(records[0], dec), AllRings(records[1..], dec));
    }
  }

  /** MAIN RESULT. Every accepted file gives at least one ring and at most 512, all of them loops on the map, of at most
      20000 points together; and it starts as a polygon file does, with eight numbers as its bounds. */
  lemma AcceptedIsDrawing(data: seq<Byte>, dec: Decoder)
    requires Parse(data, dec).Ok?
    ensures var rings := Parse(data, dec).value;
      && 1 <= |rings| <= 512 && Corners(rings) <= 20_000 && forall ring | ring in rings :: Loop(ring)
    ensures |data| >= 100 && data[..4] == [0, 0, 0x27, 0x0a] && (forall i | 4 <= i < 24 :: data[i] == 0)
    ensures data[28..32] == [0xe8, 3, 0, 0] && data[32..36] == [5, 0, 0, 0]
    ensures forall i | 0 <= i < 8 :: dec(data[36 + 8 * i..44 + 8 * i]).Finite?
  {
    HeaderReads(data, dec);
    hide *;
    var s := AcceptedIsEncoded(data, dec);
    ValidFacts(s, dec);
    Limits();
    ValidParts(s, dec);
    RecordsLoop(s.records, dec);
  }

  lemma HeaderReads(data: seq<Byte>, dec: Decoder)
    requires Parse(data, dec).Ok?
    ensures |data| >= 100 && data[..4] == [0, 0, 0x27, 0x0a] && (forall i | 4 <= i < 24 :: data[i] == 0)
    ensures data[28..32] == [0xe8, 3, 0, 0] && data[32..36] == [5, 0, 0, 0]
    ensures forall i | 0 <= i < 8 :: dec(data[36 + 8 * i..44 + 8 * i]).Finite?
  {
    HeaderChecked(data, dec);
    hide *;
    Signature(data[..4], data[28..32], data[32..36]);
    ZerosAt(data);
    BoundsFinite(data, dec);
  }

  lemma HeaderChecked(data: seq<Byte>, dec: Decoder)
    requires Parse(data, dec).Ok?
    ensures |data| >= 100 && Big(data[..4]) == FILE_CODE && data[4..24] == Zeros(20)
    ensures Little(data[28..32]) == VERSION && Little(data[32..36]) == POLYGON && AllFinite(dec, data[36..100], 8)
  {
    hide ParseFrom, Big, Little, Zeros, AllFinite;
  }

  lemma Signature(a: seq<Byte>, b: seq<Byte>, c: seq<Byte>)
    requires |a| == |b| == |c| == 4 && Big(a) == FILE_CODE && Little(b) == VERSION && Little(c) == POLYGON
    ensures a == [0, 0, 0x27, 0x0a] && b == [0xe8, 3, 0, 0] && c == [5, 0, 0, 0]
  {
    BigExactly(a, FILE_CODE);
    LittleExactly(b, VERSION);
    LittleExactly(c, POLYGON);
    hide Big, Little;
  }

  lemma ZerosAt(data: seq<Byte>)
    requires |data| >= 24 && data[4..24] == Zeros(20)
    ensures forall i | 4 <= i < 24 :: data[i] == 0
  {
    forall i | 4 <= i < 24 ensures data[i] == 0 {
      assert data[4..24][i - 4] == Zeros(20)[i - 4];
    }
  }

  lemma BoundsFinite(data: seq<Byte>, dec: Decoder)
    requires |data| >= 100 && AllFinite(dec, data[36..100], 8)
    ensures forall i | 0 <= i < 8 :: dec(data[36 + 8 * i..44 + 8 * i]).Finite?
  {
    forall i | 0 <= i < 8 ensures dec(data[36 + 8 * i..44 + 8 * i]).Finite? {
      Inner(data, 8 * i);
    }
  }

  lemma Inner(data: seq<Byte>, j: nat)
    requires |data| >= 100 && j <= 56
    ensures data[36..100][j..j + 8] == data[36 + j..44 + j]
  {
  }

  /** A record is cut off in its header when fewer than eight bytes are left, and misshapen when its counts are out of
      range or do not account for its length. */
  lemma RefusalsExactly(data: seq<Byte>, offset: nat, sequence: nat, record: seq<Byte>, dec: Decoder)
    requires offset < |data| && |record| >= 48
    ensures ParseRecord(data, offset, sequence, dec) == Err(RecordHeader) <==> |data| - offset < 8
    ensures var parts, count := Little(record[36..40]), Little(record[40..44]);
      ParseContent(record, dec) == Err(RecordDimensions) <==>
        && Little(record[..4]) == 5 && AllFinite(dec, record[4..36], 4)
        && (parts < 1 || parts > 512 || count < 4 || count > 20_000 || |record| != 44 + 4 * parts + 16 * count)
  {
    hide Big, Little, AllFinite, PartStarts, PointsInBounds, ReadStarts, ReadPoints;
  }
}
