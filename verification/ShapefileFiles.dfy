/** Whole polygon shapefiles: the parser accepts exactly the encoder's files, and returns their rings. */
module ShapefileFiles {
  import opened Common
  import opened Bytes
  import opened Shapefile
  import opened ShapefileCodec
  import opened ShapefileInverse

  datatype Shape = Shape(bounds: seq<Byte>, records: seq<Record>)

  predicate Good(r: Record, dec: Decoder) {
    ValidRecord(r, dec) && forall ring | ring in RingsOf(r, dec) :: Closed(ring)
  }

  predicate AllGood(records: seq<Record>, dec: Decoder) { forall r | r in records :: Good(r, dec) }

  lemma GoodFirst(records: seq<Record>, dec: Decoder)
    requires AllGood(records, dec) && records != []
    ensures Good(records[0], dec) && AllGood(records[1..], dec)
  {
    hide Good;
  }

  lemma GoodFacts(r: Record, dec: Decoder)
    requires Good(r, dec)
    ensures ValidRecord(r, dec) && PointsInBounds(dec, r.points) && PartStarts(r.starts, |r.points|)
    ensures forall ring | ring in RingsOf(r, dec) :: Closed(ring)
  {
  }

  function AllRings(records: seq<Record>, dec: Decoder): (rings: seq<Ring>)
    requires AllGood(records, dec)
    ensures |rings| >= |records|
  {
    if records == [] then []
    else
      GoodFirst(records, dec);
      GoodFacts(records[0], dec);
      RingsOf(records[0], dec) + AllRings(records[1..], dec)
  }

  function Vertices(records: seq<Record>): nat {
    if records == [] then 0 else |records[0].points| + Vertices(records[1..])
  }

  /** The records one after another, numbered from `number`. */
  function EncodeRecords(records: seq<Record>, number: nat, dec: Decoder): seq<Byte>
    requires AllGood(records, dec) && number + |records| <= TWO_31
  {
    if records == [] then []
    else
      GoodFirst(records, dec);
      GoodFacts(records[0], dec);
      EncodeRecord(records[0], number, dec) + EncodeRecords(records[1..], number + 1, dec)
  }

  predicate ValidShape(s: Shape, dec: Decoder) {
    && |s.bounds| == 64 && AllFinite(dec, s.bounds, 8)
    && s.records != [] && AllGood(s.records, dec)
    && |AllRings(s.records, dec)| <= MAX_RINGS && Vertices(s.records) <= MAX_VERTICES
  }

  /** The length of a file is given in its header as a number of 16-bit words. */
  predicate FitsHeader(length: nat) { length % 2 == 0 && IsInt32(length / 2) }

  /** The main-file header of a file of `length` bytes. */
  function EncodeHeader(length: nat, bounds: seq<Byte>): seq<Byte>
    requires FitsHeader(length)
  {
    PackBig(FILE_CODE) + Zeros(20) + PackBig(length / 2) + PackLittle(VERSION) + PackLittle(POLYGON) + bounds
  }

  // ----- the records

  /** One turn of the parser on a record of the encoder. */
  lemma StepComplete(data: seq<Byte>, offset: nat, sequence: nat, result: seq<Ring>, vertices: nat, dec: Decoder, r: Record)
    requires Good(r, dec) && IsInt32(sequence) && offset + Size(r) <= |data|
    requires data[offset..offset + Size(r)] == EncodeRecord(r, sequence, dec)
    requires |result| + |RingsOf(r, dec)| <= MAX_RINGS && vertices + |r.points| <= MAX_VERTICES
    ensures ParseFrom(data, offset, sequence, result, vertices, dec)
            == ParseFrom(data, offset + Size(r), sequence + 1, result + RingsOf(r, dec), vertices + |r.points|, dec)
  {
    GoodFacts(r, dec);
    RecordComplete(data, offset, sequence, r, dec);
    assert RingsOf(r, dec) == Rings(Coordinates(dec, r.points), r.starts);
    hide *;
    ParseStep(data, offset, sequence, result, vertices, dec, r);
  }

  lemma {:induction false} FromComplete(data: seq<Byte>, offset: nat, records: seq<Record>, sequence: nat, result: seq<Ring>,
                                        vertices: nat, dec: Decoder)
    requires offset <= |data| && AllGood(records, dec) && sequence + |records| <= TWO_31
    requires data[offset..] == EncodeRecords(records, sequence, dec)
    requires |result| + |AllRings(records, dec)| <= MAX_RINGS && vertices + Vertices(records) <= MAX_VERTICES
    requires result != [] || records != []
    ensures ParseFrom(data, offset, sequence, result, vertices, dec) == Ok(result + AllRings(records, dec))
    decreases |records|
  {
    hide *;
    if records == [] {
      NoRecords(sequence, dec);
      ParseEnd(data, offset, sequence, result, vertices, dec);
    } else {
      var r, rest := records[0], records[1..];
      FirstOfRecords(records, sequence, dec);
      FirstComplete(data, offset, r, rest, sequence, result, vertices, dec);
      FromComplete(data, offset + Size(r), rest, sequence + 1, result + RingsOf(r, dec), vertices + |r.points|, dec);
      Regroup(result, RingsOf(r, dec), AllRings(rest, dec));
    }
  }

  lemma Limits()
    ensures MAX_RINGS == 512 && MAX_VERTICES == 20_000 && TWO_31 == 0x8000_0000
  {
  }

  lemma NoRecords(sequence: nat, dec: Decoder)
    requires sequence <= TWO_31
    ensures AllGood([], dec) && EncodeRecords([], sequence, dec) == [] && AllRings([], dec) == [] && Vertices([]) == 0
    ensures forall result: seq<Ring> :: result + [] == result
  {
  }

  lemma FirstOfRecords(records: seq<Record>, sequence: nat, dec: Decoder)
    requires AllGood(records, dec) && sequence + |records| <= TWO_31 && records != []
    ensures var r, rest := records[0], records[1..];
            && Good(r, dec) && ValidRecord(r, dec) && PointsInBounds(dec, r.points) && PartStarts(r.starts, |r.points|)
            && AllGood(rest, dec) && IsInt32(sequence) && |RingsOf(r, dec)| >= 1
            && EncodeRecords(records, sequence, dec) == EncodeRecord(r, sequence, dec) + EncodeRecords(rest, sequence + 1, dec)
            && AllRings(records, dec) == RingsOf(r, dec) + AllRings(rest, dec)
            && Vertices(records) == |r.points| + Vertices(rest)
  {
    GoodFirst(records, dec);
    GoodFacts(records[0], dec);
    hide RingsOf, EncodeRecord, Good, ValidRecord, PointsInBounds, PartStarts, Closed;
  }

  lemma Regroup<T>(a: seq<T>, b: seq<T>, c: seq<T>)
    ensures a + b + c == a + (b + c)
  {
  }

  lemma FirstComplete(data: seq<Byte>, offset: nat, r: Record, rest: seq<Record>, sequence: nat, result: seq<Ring>, vertices: nat,
                      dec: Decoder)
    requires offset <= |data| && Good(r, dec) && AllGood(rest, dec) && sequence + 1 + |rest| <= TWO_31
    requires ValidRecord(r, dec) && IsInt32(sequence) && PointsInBounds(dec, r.points) && PartStarts(r.starts, |r.points|)
    requires data[offset..] == EncodeRecord(r, sequence, dec) + EncodeRecords(rest, sequence + 1, dec)
    requires |result| + |RingsOf(r, dec)| <= MAX_RINGS && vertices + |r.points| <= MAX_VERTICES
    ensures offset + Size(r) <= |data| && data[offset + Size(r)..] == EncodeRecords(rest, sequence + 1, dec)
    ensures ParseFrom(data, offset, sequence, result, vertices, dec)
            == ParseFrom(data, offset + Size(r), sequence + 1, result + RingsOf(r, dec), vertices + |r.points|, dec)
  {
    hide *;
    EncodedSize(r, sequence, dec);
    TakeHead(data, offset, EncodeRecord(r, sequence, dec), EncodeRecords(rest, sequence + 1, dec));
    StepComplete(data, offset, sequence, result, vertices, dec, r);
  }

  lemma TakeHead(data: seq<Byte>, offset: nat, head: seq<Byte>, tail: seq<Byte>)
    requires offset <= |data| && data[offset..] == head + tail
    ensures offset + |head| <= |data| && data[offset..offset + |head|] == head && data[offset + |head|..] == tail
  {
    var d := data[offset..];
    assert d[..|head|] == head && d[|head|..] == tail;
  }

  /** One turn of the parser that is not refused was on a record of the encoder. */
  lemma StepSound(data: seq<Byte>, offset: nat, sequence: nat, result: seq<Ring>, vertices: nat, dec: Decoder)
    returns (r: Record)
    requires offset < |data| && ParseFrom(data, offset, sequence, result, vertices, dec).Ok?
    ensures Good(r, dec) && ValidRecord(r, dec) && PointsInBounds(dec, r.points) && PartStarts(r.starts, |r.points|)
    ensures IsInt32(sequence) && offset + Size(r) <= |data| && Size(r) >= 52 && |RingsOf(r, dec)| >= 1
    ensures data[offset..offset + Size(r)] == EncodeRecord(r, sequence, dec)
    ensures |result| + |RingsOf(r, dec)| <= MAX_RINGS && vertices + |r.points| <= MAX_VERTICES
    ensures ParseFrom(data, offset, sequence, result, vertices, dec)
            == ParseFrom(data, offset + Size(r), sequence + 1, result + RingsOf(r, dec), vertices + |r.points|, dec)
  {
    hide *;
    r := AcceptedRecord(data, offset, sequence, result, vertices, dec);
    RecordSound(data, offset, sequence, dec);
    AcceptedStep(data, offset, sequence, result, vertices, dec, r);
  }

  lemma AcceptedRecord(data: seq<Byte>, offset: nat, sequence: nat, result: seq<Ring>, vertices: nat, dec: Decoder)
    returns (r: Record)
    requires offset < |data| && ParseFrom(data, offset, sequence, result, vertices, dec).Ok?
    ensures ParseRecord(data, offset, sequence, dec) == Ok(r)
  {
    ParseRefused(data, offset, sequence, result, vertices, dec);
    hide *;
    r := ParseRecord(data, offset, sequence, dec).value;
  }

  lemma AcceptedStep(data: seq<Byte>, offset: nat, sequence: nat, result: seq<Ring>, vertices: nat, dec: Decoder, r: Record)
    requires offset < |data| && ParseFrom(data, offset, sequence, result, vertices, dec).Ok?
    requires ParseRecord(data, offset, sequence, dec) == Ok(r) && ValidRecord(r, dec)
    ensures Good(r, dec) && PointsInBounds(dec, r.points) && PartStarts(r.starts, |r.points|)
    ensures Size(r) >= 52 && |RingsOf(r, dec)| >= 1
    ensures |result| + |RingsOf(r, dec)| <= MAX_RINGS && vertices + |r.points| <= MAX_VERTICES
    ensures ParseFrom(data, offset, sequence, result, vertices, dec)
            == ParseFrom(data, offset + Size(r), sequence + 1, result + RingsOf(r, dec), vertices + |r.points|, dec)
  {
    ParseStep(data, offset, sequence, result, vertices, dec, r);
    assert RingsOf(r, dec) == Rings(Coordinates(dec, r.points), r.starts);
    hide ParseFrom, ParseRecord, Rings, Coordinates, Closed, ValidRecord;
  }

  lemma {:induction false} FromSound(data: seq<Byte>, offset: nat, sequence: nat, result: seq<Ring>, vertices: nat, dec: Decoder)
    returns (records: seq<Record>)
    requires ParseFrom(data, offset, sequence, result, vertices, dec).Ok?
    requires sequence <= |result| + 1 && |result| <= MAX_RINGS && vertices <= MAX_VERTICES
    ensures offset <= |data| && AllGood(records, dec) && sequence + |records| <= TWO_31
    ensures data[offset..] == EncodeRecords(records, sequence, dec)
    ensures ParseFrom(data, offset, sequence, result, vertices, dec).value == result + AllRings(records, dec)
    ensures |result| + |AllRings(records, dec)| <= MAX_RINGS && vertices + Vertices(records) <= MAX_VERTICES
    ensures result != [] || records != []
    decreases |data| - offset
  {
    hide *;
    if offset >= |data| {
      ParseEnd(data, offset, sequence, result, vertices, dec);
      records := [];
      Limits();
      NoRecords(sequence, dec);
      assert data[offset..] == [];
    } else {
      var r := StepSound(data, offset, sequence, result, vertices, dec);
      var rings := RingsOf(r, dec);
      var rest := FromSound(data, offset + Size(r), sequence + 1, result + rings, vertices + |r.points|, dec);
      records := [r] + rest;
      RecordsCons(r, rest, sequence, dec);
      SplitAt(data, offset, offset + Size(r));
      Regroup(result, rings, AllRings(rest, dec));
    }
  }

  lemma SplitAt(data: seq<Byte>, from: nat, middle: nat)
    requires from <= middle <= |data|
    ensures data[from..] == data[from..middle] + data[middle..]
  {
  }

  lemma RecordsCons(r: Record, rest: seq<Record>, sequence: nat, dec: Decoder)
    requires Good(r, dec) && AllGood(rest, dec) && sequence + 1 + |rest| <= TWO_31
    ensures AllGood([r] + rest, dec) && IsInt32(sequence) && ValidRecord(r, dec)
    ensures EncodeRecords([r] + rest, sequence, dec) == EncodeRecord(r, sequence, dec) + EncodeRecords(rest, sequence + 1, dec)
    ensures AllRings([r] + rest, dec) == RingsOf(r, dec) + AllRings(rest, dec)
    ensures Vertices([r] + rest) == |r.points| + Vertices(rest)
  {
    assert ([r] + rest)[1..] == rest;
    hide RingsOf, EncodeRecord;
  }

  // ----- the whole file

  lemma OneSize(r: Record, dec: Decoder)
    requires ValidRecord(r, dec) && PointsInBounds(dec, r.points) && PartStarts(r.starts, |r.points|)
    ensures Size(r) <= 56 * |RingsOf(r, dec)| + 16 * |r.points|
  {
    assert |RingsOf(r, dec)| == |r.starts|;
    hide RingsOf, ValidRecord, PointsInBounds, PartStarts;
  }

  lemma {:induction false} RecordsSize(records: seq<Record>, number: nat, dec: Decoder)
    requires AllGood(records, dec) && number + |records| <= TWO_31
    ensures var size := |EncodeRecords(records, number, dec)|;
            size % 2 == 0 && size <= 56 * |AllRings(records, dec)| + 16 * Vertices(records)
    decreases |records|
  {
    hide *;
    if records == [] {
      NoRecords(number, dec);
    } else {
      FirstOfRecords(records, number, dec);
      EncodedSize(records[0], number, dec);
      OneSize(records[0], dec);
      RecordsSize(records[1..], number + 1, dec);
    }
  }

  lemma ValidFacts(s: Shape, dec: Decoder)
    requires ValidShape(s, dec)
    ensures |s.bounds| == 64 && AllFinite(dec, s.bounds, 8) && AllGood(s.records, dec) && 1 + |s.records| <= TWO_31
    ensures |AllRings(s.records, dec)| <= MAX_RINGS && Vertices(s.records) <= MAX_VERTICES
  {
    assert |s.records| <= |AllRings(s.records, dec)|;
    hide AllFinite, AllGood, AllRings, Vertices;
  }

  lemma SmallFits(size: nat)
    requires size % 2 == 0 && size <= 56 * MAX_RINGS + 16 * MAX_VERTICES
    ensures FitsHeader(100 + size)
  {
  }

  /** The encoder can write this shape: its records are well formed and the file length fits its header. */
  predicate Encodable(s: Shape, dec: Decoder) {
    && AllGood(s.records, dec) && 1 + |s.records| <= TWO_31
    && FitsHeader(100 + |EncodeRecords(s.records, 1, dec)|)
  }

  /** A valid shape is never too long for its header. */
  lemma ShapeFits(s: Shape, dec: Decoder)
    requires ValidShape(s, dec)
    ensures Encodable(s, dec)
  {
    ValidFacts(s, dec);
    RecordsSize(s.records, 1, dec);
    Limits();
    SmallFits(|EncodeRecords(s.records, 1, dec)|);
    hide AllGood, EncodeRecords, ValidShape, AllFinite, AllRings, Vertices, FitsHeader;
  }

  function EncodeFile(bounds: seq<Byte>, records: seq<Byte>): seq<Byte>
    requires FitsHeader(100 + |records|)
  {
    EncodeHeader(100 + |records|, bounds) + records
  }

  function Encode(s: Shape, dec: Decoder): seq<Byte>
    requires Encodable(s, dec)
  {
    EncodeFile(s.bounds, EncodeRecords(s.records, 1, dec))
  }

  lemma HeaderPieces(length: nat, bounds: seq<Byte>, h: seq<Byte>)
    requires FitsHeader(length) && |bounds| == 64 && |h| == 100
    ensures h == EncodeHeader(length, bounds) <==>
              && h[..4] == PackBig(FILE_CODE) && h[4..24] == Zeros(20) && h[24..28] == PackBig(length / 2)
              && h[28..32] == PackLittle(VERSION) && h[32..36] == PackLittle(POLYGON) && h[36..100] == bounds
  {
    hide PackBig, PackLittle, Zeros;
    assert h == h[..4] + h[4..24] + h[24..28] + h[28..32] + h[32..36] + h[36..100];
  }

  /** The header checks accept exactly the headers of the encoder. */
  lemma HeaderExactly(data: seq<Byte>, dec: Decoder)
    requires |data| >= 100
    ensures ParseHeader(data, dec).None? <==>
              && FitsHeader(|data|) && AllFinite(dec, data[36..100], 8)
              && data[..100] == EncodeHeader(|data|, data[36..100])
  {
    var h := data[..100];
    BigExactly(data[..4], FILE_CODE);
    assert IsInt32(Big(data[24..28]));
    LittleExactly(data[28..32], VERSION);
    LittleExactly(data[32..36], POLYGON);
    if FitsHeader(|data|) {
      BigExactly(data[24..28], |data| / 2);
      HeaderPieces(|data|, data[36..100], h);
    }
    assert h[..4] == data[..4] && h[4..24] == data[4..24] && h[24..28] == data[24..28] && h[28..32] == data[28..32];
    assert h[32..36] == data[32..36] && h[36..100] == data[36..100];
    hide Big, Little, PackBig, PackLittle, Zeros, AllFinite, EncodeHeader;
  }

  lemma FileParts(bounds: seq<Byte>, tail: seq<Byte>, dec: Decoder)
    requires |bounds| == 64 && AllFinite(dec, bounds, 8) && FitsHeader(100 + |tail|)
    ensures var data := EncodeFile(bounds, tail);
            |data| == 100 + |tail| && data[100..] == tail && Parse(data, dec) == ParseFrom(data, 100, 1, [], 0, dec)
  {
    var data := EncodeFile(bounds, tail);
    var h := EncodeHeader(100 + |tail|, bounds);
    assert |h| == 100 && data == h + tail;
    assert data[..100] == h && data[100..] == tail && data[36..100] == h[36..] == bounds;
    HeaderExactly(data, dec);
    ParseParts(data, dec);
    hide EncodeHeader, AllFinite, ParseHeader, Parse, ParseFrom;
  }

  lemma FileAccepted(data: seq<Byte>, dec: Decoder)
    requires Parse(data, dec).Ok?
    ensures |data| >= 100 && Parse(data, dec) == ParseFrom(data, 100, 1, [], 0, dec)
    ensures FitsHeader(100 + |data[100..]|)
    ensures var bounds := data[36..100]; |bounds| == 64 && AllFinite(dec, bounds, 8) && data == EncodeFile(bounds, data[100..])
  {
    ParseParts(data, dec);
    assert |data| >= 100;
    HeaderExactly(data, dec);
    assert data == data[..100] + data[100..];
    hide EncodeHeader, AllFinite, ParseHeader, Parse, ParseFrom;
  }

  lemma ValidParts(s: Shape, dec: Decoder)
    requires |s.bounds| == 64 && AllFinite(dec, s.bounds, 8) && AllGood(s.records, dec)
    ensures ValidShape(s, dec) <==>
              s.records != [] && |AllRings(s.records, dec)| <= MAX_RINGS && Vertices(s.records) <= MAX_VERTICES
  {
    hide AllFinite, AllGood, AllRings, Vertices;
  }

  lemma EncodeParts(s: Shape, dec: Decoder)
    requires Encodable(s, dec)
    ensures AllGood(s.records, dec) && 1 + |s.records| <= TWO_31
    ensures FitsHeader(100 + |EncodeRecords(s.records, 1, dec)|)
    ensures Encode(s, dec) == EncodeFile(s.bounds, EncodeRecords(s.records, 1, dec))
  {
    hide EncodeRecords, EncodeFile, AllGood, FitsHeader;
  }

  /** MAIN RESULT. The parser inverts the encoder: every valid shape, encoded, parses to its rings. */
  lemma ParserInvertsEncoder(s: Shape, dec: Decoder)
    requires ValidShape(s, dec)
    ensures Encodable(s, dec) && AllGood(s.records, dec)
    ensures Parse(Encode(s, dec), dec) == Ok(AllRings(s.records, dec))
  {
    hide *;
    ShapeFits(s, dec);
    EncodeParts(s, dec);
    ValidFacts(s, dec);
    ValidParts(s, dec);
    FileParts(s.bounds, EncodeRecords(s.records, 1, dec), dec);
    Limits();
    FromComplete(Encode(s, dec), 100, s.records, 1, [], 0, dec);
    assert [] + AllRings(s.records, dec) == AllRings(s.records, dec);
  }

  /** MAIN RESULT. And the encoder inverts the parser: every accepted file is the encoding of a valid shape whose
      rings were returned, so every byte was accounted for. */
  lemma AcceptedIsEncoded(data: seq<Byte>, dec: Decoder) returns (s: Shape)
    requires Parse(data, dec).Ok?
    ensures ValidShape(s, dec) && Encodable(s, dec) && Encode(s, dec) == data
    ensures AllGood(s.records, dec) && Parse(data, dec) == Ok(AllRings(s.records, dec))
  {
    hide *;
    FileAccepted(data, dec);
    Limits();
    var records := FromSound(data, 100, 1, [], 0, dec);
    s := Shape(data[36..100], records);
    assert [] + AllRings(records, dec) == AllRings(records, dec);
    ValidParts(s, dec);
    ShapeFits(s, dec);
    EncodeParts(s, dec);
  }

  // ----- what the rings of one record are

  function Joined(rings: seq<Ring>): seq<Point> { if rings == [] then [] else rings[0] + Joined(rings[1..]) }

  lemma {:induction false} RingsJoin(coordinates: seq<Point>, starts: seq<int>, k: nat)
    requires PartStarts(starts, |coordinates|) && k <= |starts|
    ensures Joined(Rings(coordinates, starts)[k..])
            == coordinates[if k < |starts| then starts[k] else |coordinates|..]
    decreases |starts| - k
  {
    var rings := Rings(coordinates, starts);
    if k == |starts| {
      assert rings[k..] == [];
    } else {
      assert EndOf(starts, |coordinates|, k) <= |coordinates|;
      RingsJoin(coordinates, starts, k + 1);
      assert rings[k..][0] == rings[k] && rings[k..][1..] == rings[k + 1..];
      var e := EndOf(starts, |coordinates|, k);
      assert coordinates[starts[k]..] == coordinates[starts[k]..e] + coordinates[e..];
    }
  }

  /** The rings of an accepted record, one after another, are exactly its coordinates, and each is closed with at least
      four points. */
  lemma RecordRings(r: Record, dec: Decoder)
    requires Good(r, dec)
    ensures Joined(RingsOf(r, dec)) == Coordinates(dec, r.points) && |RingsOf(r, dec)| == |r.starts|
    ensures forall ring | ring in RingsOf(r, dec) :: |ring| >= 4 && ring[0] == ring[|ring| - 1]
  {
    RingsJoin(Coordinates(dec, r.points), r.starts, 0);
    assert RingsOf(r, dec)[0..] == RingsOf(r, dec);
  }
}
