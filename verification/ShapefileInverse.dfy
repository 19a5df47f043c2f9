/** The parser and the encoder undo each other, record by record and file by file. */
module ShapefileInverse {
  import opened Common
  import opened Bytes
  import opened Shapefile
  import opened ShapefileCodec

  // ----- the two tables of a record

  lemma SliceOfSlice(b: seq<Byte>, from: nat, to: nat, i: nat, j: nat)
    requires i <= j && from + j <= to <= |b|
    ensures b[from..to][i..j] == b[from + i..from + j]
  {
    var x, y := b[from..to][i..j], b[from + i..from + j];
    forall k | 0 <= k < j - i ensures x[k] == y[k] {
      assert x[k] == b[from..to][i + k] == b[from + i + k];
    }
    assert |x| == |y|;
  }

  lemma StartChunk(b: seq<Byte>, starts: seq<int>, i: nat)
    requires 44 + 4 * |starts| <= |b| && i < |starts| && forall s | s in starts :: IsInt32(s)
    ensures var table := b[44..44 + 4 * |starts|];
            && At(4, i) + 4 <= |table|
            && (ReadStarts(b, |starts|)[i] == starts[i] <==> Chunk(table, 4, i) == Packed(starts)[i])
  {
    SliceOfSlice(b, 44, 44 + 4 * |starts|, 4 * i, 4 * i + 4);
    assert starts[i] in starts;
    LittleExactly(b[44 + 4 * i..48 + 4 * i], starts[i]);
    hide Little, PackLittle;
  }

  lemma StartsExactly(b: seq<Byte>, starts: seq<int>)
    requires 44 + 4 * |starts| <= |b| && forall s | s in starts :: IsInt32(s)
    ensures ReadStarts(b, |starts|) == starts <==> b[44..44 + 4 * |starts|] == Flat(Packed(starts))
  {
    var table, chunks := b[44..44 + 4 * |starts|], Packed(starts);
    InPlaceExactly(table, chunks, 4);
    assert At(4, |chunks|) == |table|;
    forall i | 0 <= i < |starts|
      ensures At(4, i) + 4 <= |table| && (ReadStarts(b, |starts|)[i] == starts[i] <==> Chunk(table, 4, i) == chunks[i])
    {
      StartChunk(b, starts, i);
    }
    hide Flat, At, Chunk, Packed, ReadStarts, IsInt32;
    if InPlace(table, chunks, 4) {
      forall i | 0 <= i < |starts| ensures ReadStarts(b, |starts|)[i] == starts[i] {
        assert Chunk(table, 4, i) == chunks[i];
      }
    }
  }

  lemma PointsExactly(b: seq<Byte>, parts: nat, points: seq<seq<Byte>>)
    requires |b| == 44 + 4 * parts + 16 * |points| && Chunked(points, 16)
    ensures ReadPoints(b, parts, |points|) == points <==> b[44 + 4 * parts..] == Flat(points)
  {
    var p := 44 + 4 * parts;
    var table := b[p..];
    InPlaceExactly(table, points, 16);
    assert At(16, |points|) == |table|;
    forall i | 0 <= i < |points|
      ensures At(16, i) + 16 <= |table| && Chunk(table, 16, i) == ReadPoints(b, parts, |points|)[i]
    {
      assert At(16, i) == 16 * i;
      SliceOfSlice(b, p, |b|, 16 * i, 16 * i + 16);
    }
    hide Flat, At, Chunk, ReadPoints;
    if InPlace(table, points, 16) {
      forall i | 0 <= i < |points| ensures ReadPoints(b, parts, |points|)[i] == points[i] {
        assert Chunk(table, 16, i) == points[i];
      }
    }
  }

  // ----- one record

  lemma ContentSound(b: seq<Byte>, dec: Decoder)
    requires |b| >= 48 && ParseContent(b, dec).Ok?
    ensures var r := ParseContent(b, dec).value; ValidRecord(r, dec) && Laid(b, r, dec)
  {
    var r := ParseContent(b, dec).value;
    StartsFit(r, dec);
    LittleExactly(b[..4], POLYGON);
    LittleExactly(b[36..40], |r.starts|);
    LittleExactly(b[40..44], |r.points|);
    StartsExactly(b, r.starts);
    PointsExactly(b, |r.starts|, r.points);
    hide Little, PackLittle, ReadStarts, ReadPoints, Flat, Packed, AllFinite, PartStarts, InBounds, IsInt32;
  }

  lemma ContentComplete(b: seq<Byte>, r: Record, dec: Decoder)
    requires |b| >= 48 && ValidRecord(r, dec) && Laid(b, r, dec)
    ensures ParseContent(b, dec) == Ok(r)
  {
    StartsFit(r, dec);
    LittleExactly(b[..4], POLYGON);
    LittleExactly(b[36..40], |r.starts|);
    LittleExactly(b[40..44], |r.points|);
    StartsExactly(b, r.starts);
    PointsExactly(b, |r.starts|, r.points);
    hide Little, PackLittle, ReadStarts, ReadPoints, Flat, Packed, AllFinite, PartStarts, InBounds, IsInt32;
  }

  function EncodeRecord(r: Record, number: nat, dec: Decoder): (b: seq<Byte>)
    requires ValidRecord(r, dec) && IsInt32(number)
  {
    PackBig(number) + PackBig((Size(r) - 8) / 2) + EncodeContent(r, dec)
  }

  lemma EncodedSize(r: Record, number: nat, dec: Decoder)
    requires ValidRecord(r, dec) && IsInt32(number)
    ensures |EncodeContent(r, dec)| == Size(r) - 8 && |EncodeRecord(r, number, dec)| == Size(r)
    ensures Size(r) % 2 == 0
  {
    LaidIsEncoded(EncodeContent(r, dec), r, dec);
    LaidSize(EncodeContent(r, dec), r, dec);
    RecordSize(r, number, dec);
    hide *;
  }

  lemma LaidSize(b: seq<Byte>, r: Record, dec: Decoder)
    requires ValidRecord(r, dec) && Laid(b, r, dec)
    ensures |b| == Size(r) - 8 && Size(r) % 2 == 0
  {
    hide ValidRecord, Flat, Packed, PackLittle;
  }

  lemma RecordSize(r: Record, number: nat, dec: Decoder)
    requires ValidRecord(r, dec) && IsInt32(number)
    ensures |EncodeRecord(r, number, dec)| == 8 + |EncodeContent(r, dec)|
  {
    hide ValidRecord, EncodeContent;
  }

  lemma Words(n: int)
    requires n % 2 == 0
    ensures n / 2 * 2 == n
  {
  }

  /** What `ParseRecord` asks of the record header. */
  lemma RecordParts(data: seq<Byte>, offset: nat, sequence: nat, dec: Decoder, words: nat)
    requires words >= 24 && offset + 8 + words * 2 <= |data|
    requires Big(data[offset + 4..offset + 8]) == words && Big(data[offset..offset + 4]) == sequence
    ensures ParseRecord(data, offset, sequence, dec) == ParseContent(data[offset + 8..offset + 8 + words * 2], dec)
  {
    hide ParseContent, Big;
  }

  lemma RecordAccepted(data: seq<Byte>, offset: nat, sequence: nat, dec: Decoder) returns (words: nat)
    requires offset < |data| && ParseRecord(data, offset, sequence, dec).Ok?
    ensures words >= 24 && offset + 8 + words * 2 <= |data| && IsInt32(sequence)
    ensures Big(data[offset..offset + 4]) == sequence && Big(data[offset + 4..offset + 8]) == words
    ensures ParseContent(data[offset + 8..offset + 8 + words * 2], dec) == ParseRecord(data, offset, sequence, dec)
  {
    words := Big(data[offset + 4..offset + 8]);
    assert IsInt32(Big(data[offset..offset + 4]));
    hide ParseContent, Big, IsInt32;
  }

  lemma Adjacent(data: seq<Byte>, offset: nat, middle: nat, end: nat)
    requires offset + 8 == middle <= end <= |data|
    ensures data[offset..end] == data[offset..offset + 4] + data[offset + 4..middle] + data[middle..end]
    ensures data[offset..end][..4] == data[offset..offset + 4] && data[offset..end][4..8] == data[offset + 4..middle]
    ensures data[offset..end][8..] == data[middle..end]
  {
  }

  lemma EncodedParts(r: Record, number: nat, dec: Decoder)
    requires ValidRecord(r, dec) && IsInt32(number)
    ensures var e, words := EncodeRecord(r, number, dec), (Size(r) - 8) / 2;
            && IsInt32(words) && words >= 24 && words * 2 == Size(r) - 8
            && e == PackBig(number) + PackBig(words) + EncodeContent(r, dec) && |e| == Size(r)
            && e[..4] == PackBig(number) && e[4..8] == PackBig(words) && e[8..] == EncodeContent(r, dec)
  {
    EncodedSize(r, number, dec);
    Words(Size(r) - 8);
    hide EncodeContent, PackBig;
  }

  lemma ThreePieces(a: seq<Byte>, b: seq<Byte>, c: seq<Byte>, whole: seq<Byte>)
    requires |a| == 4 && |b| == 4 && |whole| == 8 + |c|
    ensures whole == a + b + c <==> whole[..4] == a && whole[4..8] == b && whole[8..] == c
  {
    assert whole == whole[..4] + whole[4..8] + whole[8..];
  }

  /** The bytes of a record, from its parts. */
  lemma PartsAreEncoded(d: seq<Byte>, r: Record, sequence: nat, dec: Decoder)
    requires ValidRecord(r, dec) && IsInt32(sequence) && |d| == Size(r)
    ensures d == EncodeRecord(r, sequence, dec) <==>
              && Big(d[..4]) == sequence && Big(d[4..8]) == (Size(r) - 8) / 2 && d[8..] == EncodeContent(r, dec)
  {
    hide *;
    var words := (Size(r) - 8) / 2;
    EncodedParts(r, sequence, dec);
    EncodedSize(r, sequence, dec);
    BigExactly(d[..4], sequence);
    BigExactly(d[4..8], words);
    ThreePieces(PackBig(sequence), PackBig(words), EncodeContent(r, dec), d);
  }

  lemma ContentExactly(content: seq<Byte>, r: Record, dec: Decoder)
    requires |content| >= 48
    ensures ParseContent(content, dec) == Ok(r) <==> ValidRecord(r, dec) && content == EncodeContent(r, dec)
  {
    if ParseContent(content, dec) == Ok(r) {
      ContentSound(content, dec);
    }
    if ValidRecord(r, dec) {
      LaidIsEncoded(content, r, dec);
      if content == EncodeContent(r, dec) {
        ContentComplete(content, r, dec);
      }
    }
    hide *;
  }

  /** A record that is accepted at its place is one of the encoder's. */
  lemma RecordSound(data: seq<Byte>, offset: nat, sequence: nat, dec: Decoder)
    requires offset < |data| && ParseRecord(data, offset, sequence, dec).Ok?
    ensures var r := ParseRecord(data, offset, sequence, dec).value;
            && ValidRecord(r, dec) && IsInt32(sequence) && offset + Size(r) <= |data|
            && data[offset..offset + Size(r)] == EncodeRecord(r, sequence, dec)
  {
    hide *;
    var words := RecordAccepted(data, offset, sequence, dec);
    RecordSoundAt(data, offset, sequence, dec, words, ParseRecord(data, offset, sequence, dec).value);
  }

  lemma RecordSoundAt(data: seq<Byte>, offset: nat, sequence: nat, dec: Decoder, words: nat, r: Record)
    requires words >= 24 && offset + 8 + words * 2 <= |data| && IsInt32(sequence)
    requires Big(data[offset..offset + 4]) == sequence && Big(data[offset + 4..offset + 8]) == words
    requires ParseContent(data[offset + 8..offset + 8 + words * 2], dec) == Ok(r)
    ensures ValidRecord(r, dec) && offset + Size(r) <= |data|
    ensures data[offset..offset + Size(r)] == EncodeRecord(r, sequence, dec)
  {
    hide *;
    ContentExactly(data[offset + 8..offset + 8 + words * 2], r, dec);
    EncodedSize(r, sequence, dec);
    assert words * 2 == Size(r) - 8;
    Adjacent(data, offset, offset + 8, offset + Size(r));
    PartsAreEncoded(data[offset..offset + Size(r)], r, sequence, dec);
  }

  /** And every record of the encoder is accepted at its place. */
  lemma RecordComplete(data: seq<Byte>, offset: nat, sequence: nat, r: Record, dec: Decoder)
    requires ValidRecord(r, dec) && IsInt32(sequence) && offset + Size(r) <= |data|
    requires data[offset..offset + Size(r)] == EncodeRecord(r, sequence, dec)
    ensures ParseRecord(data, offset, sequence, dec) == Ok(r)
  {
    hide *;
    var words := (Size(r) - 8) / 2;
    EncodedParts(r, sequence, dec);
    Adjacent(data, offset, offset + 8, offset + Size(r));
    PartsAreEncoded(data[offset..offset + Size(r)], r, sequence, dec);
    ContentExactly(data[offset + 8..offset + 8 + words * 2], r, dec);
    RecordParts(data, offset, sequence, dec, words);
  }
}
