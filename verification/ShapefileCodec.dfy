/** The polygon shapefile format, written down as an encoder: main-file header, record headers and Polygon
    records of the ESRI Shapefile Technical Description. The parser accepts exactly what it writes. */
module ShapefileCodec {
  import opened Bytes
  import opened Shapefile

  // ----- chunks of equal length

  function Flat(chunks: seq<seq<Byte>>): seq<Byte> { if chunks == [] then [] else chunks[0] + Flat(chunks[1..]) }

  predicate Chunked(chunks: seq<seq<Byte>>, k: nat) { forall c | c in chunks :: |c| == k }

  /** Where chunk `i` starts. */
  function At(k: nat, i: nat): nat { k * i }

  lemma AtNext(k: nat, i: nat)
    ensures At(k, i + 1) == At(k, i) + k && At(k, 0) == 0
  {
  }

  lemma {:induction false} AtOrder(k: nat, i: nat, j: nat)
    requires i <= j
    ensures At(k, i) <= At(k, j)
  {
    if i < j {
      AtNext(k, j - 1);
      AtOrder(k, i, j - 1);
    }
  }

  lemma {:induction false} FlatSize(chunks: seq<seq<Byte>>, k: nat)
    requires Chunked(chunks, k)
    ensures |Flat(chunks)| == At(k, |chunks|)
  {
    AtNext(k, 0);
    if chunks != [] {
      assert chunks[0] in chunks && forall c | c in chunks[1..] :: c in chunks;
      AtNext(k, |chunks| - 1);
      hide At;
      FlatSize(chunks[1..], k);
    }
  }

  /** Chunk `i` of `b`. */
  function Chunk(b: seq<Byte>, k: nat, i: nat): (c: seq<Byte>)
    requires At(k, i) + k <= |b|
  {
    b[At(k, i)..At(k, i) + k]
  }

  /** The bytes are the chunks, each in its place. */
  ghost predicate InPlace(b: seq<Byte>, chunks: seq<seq<Byte>>, k: nat) {
    |b| == At(k, |chunks|) && forall i | 0 <= i < |chunks| :: At(k, i) + k <= |b| && Chunk(b, k, i) == chunks[i]
  }

  lemma ChunkShift(head: seq<Byte>, rest: seq<Byte>, k: nat, i: nat)
    requires |head| == k && At(k, i) + k <= |rest|
    ensures At(k, i + 1) + k <= |head + rest| && Chunk(head + rest, k, i + 1) == Chunk(rest, k, i)
  {
    AtNext(k, i);
    hide At;
    var j := At(k, i);
    assert (head + rest)[k + j..k + j + k] == rest[j..j + k];
  }

  lemma ChunkFirst(head: seq<Byte>, rest: seq<Byte>, k: nat)
    requires |head| == k
    ensures At(k, 0) + k <= |head + rest| && Chunk(head + rest, k, 0) == head
  {
    AtNext(k, 0);
  }

  /** The first chunk and the others. */
  lemma InPlaceStep(head: seq<Byte>, rest: seq<Byte>, chunks: seq<seq<Byte>>, k: nat)
    requires chunks != [] && |head| == k
    ensures InPlace(head + rest, chunks, k) <==> head == chunks[0] && InPlace(rest, chunks[1..], k)
  {
    var b, tail := head + rest, chunks[1..];
    AtNext(k, |tail|);
    ChunkFirst(head, rest, k);
    hide Chunk, At;
    if InPlace(b, chunks, k) {
      assert Chunk(b, k, 0) == chunks[0];
      forall i | 0 <= i < |tail| ensures At(k, i) + k <= |rest| && Chunk(rest, k, i) == tail[i] {
        assert Chunk(b, k, i + 1) == chunks[i + 1];
        AtNext(k, i);
        ChunkShift(head, rest, k, i);
      }
    }
    if head == chunks[0] && InPlace(rest, tail, k) {
      forall i | 0 <= i < |chunks| ensures At(k, i) + k <= |b| && Chunk(b, k, i) == chunks[i] {
        if i > 0 {
          assert Chunk(rest, k, i - 1) == tail[i - 1];
          ChunkShift(head, rest, k, i - 1);
        }
      }
    }
  }

  /** Bytes are the chunks one after another exactly when every chunk is in its place. */
  lemma {:induction false} InPlaceExactly(b: seq<Byte>, chunks: seq<seq<Byte>>, k: nat)
    requires Chunked(chunks, k)
    ensures InPlace(b, chunks, k) <==> b == Flat(chunks)
  {
    AtNext(k, 0);
    if chunks == [] {
      assert At(k, |chunks|) == 0;
    } else {
      assert chunks[0] in chunks && forall c | c in chunks[1..] :: c in chunks;
      FlatSize(chunks, k);
      AtNext(k, |chunks| - 1);
      hide At, Chunk;
      if |b| == At(k, |chunks|) {
        assert b == b[..k] + b[k..];
        InPlaceStep(b[..k], b[k..], chunks, k);
        InPlaceExactly(b[k..], chunks[1..], k);
      }
    }
  }

  // ----- the content of one record

  function Packed(starts: seq<int>): (chunks: seq<seq<Byte>>)
    requires forall s | s in starts :: IsInt32(s)
    ensures Chunked(chunks, 4) && |chunks| == |starts|
  {
    seq(|starts|, i requires 0 <= i < |starts| => PackLittle(starts[i]))
  }

  predicate ValidRecord(r: Record, dec: Decoder) {
    && |r.box| == 32 && AllFinite(dec, r.box, 4)
    && |r.starts| <= 512 && 4 <= |r.points| <= 20_000
    && PartStarts(r.starts, |r.points|) && PointsInBounds(dec, r.points)
  }

  lemma StartsFit(r: Record, dec: Decoder)
    requires ValidRecord(r, dec)
    ensures forall s | s in r.starts :: IsInt32(s)
    ensures Chunked(r.points, 16) && IsInt32(|r.starts|) && IsInt32(|r.points|) && r.starts != []
  {
    forall s | s in r.starts ensures 0 <= s < |r.points| {
      var i :| 0 <= i < |r.starts| && r.starts[i] == s;
      if i > 0 {
        assert r.starts[0] < r.starts[i];
      }
      if i < |r.starts| - 1 {
        assert r.starts[i] < r.starts[|r.starts| - 1];
      }
    }
    hide InBounds;
  }

  function EncodeContent(r: Record, dec: Decoder): seq<Byte>
    requires ValidRecord(r, dec)
  {
    StartsFit(r, dec);
    PackLittle(POLYGON) + r.box + PackLittle(|r.starts|) + PackLittle(|r.points|) + Flat(Packed(r.starts)) + Flat(r.points)
  }

  /** Where the encoder puts each field. */
  ghost predicate Laid(b: seq<Byte>, r: Record, dec: Decoder)
    requires ValidRecord(r, dec)
  {
    StartsFit(r, dec);
    var p := 44 + 4 * |r.starts|;
    && |b| == p + 16 * |r.points|
    && b[..4] == PackLittle(POLYGON) && b[4..36] == r.box
    && b[36..40] == PackLittle(|r.starts|) && b[40..44] == PackLittle(|r.points|)
    && b[44..p] == Flat(Packed(r.starts)) && b[p..] == Flat(r.points)
  }

  /** A concatenation of six pieces, taken apart again. */
  lemma Pieces(a: seq<Byte>, b: seq<Byte>, c: seq<Byte>, d: seq<Byte>, e: seq<Byte>, f: seq<Byte>, whole: seq<Byte>)
    requires |a| == 4 && |b| == 32 && |c| == 4 && |d| == 4
    ensures var p := 44 + |e|;
            whole == a + b + c + d + e + f <==>
              && |whole| == p + |f|
              && whole[..4] == a && whole[4..36] == b && whole[36..40] == c && whole[40..44] == d
              && whole[44..p] == e && whole[p..] == f
  {
    var p := 44 + |e|;
    if |whole| == p + |f| {
      assert whole == whole[..4] + whole[4..36] + whole[36..40] + whole[40..44] + whole[44..p] + whole[p..];
    }
  }

  lemma LaidIsEncoded(b: seq<Byte>, r: Record, dec: Decoder)
    requires ValidRecord(r, dec)
    ensures Laid(b, r, dec) <==> b == EncodeContent(r, dec)
  {
    StartsFit(r, dec);
    FlatSize(Packed(r.starts), 4);
    FlatSize(r.points, 16);
    assert |Flat(Packed(r.starts))| == 4 * |r.starts| && |Flat(r.points)| == 16 * |r.points|;
    Pieces(PackLittle(POLYGON), r.box, PackLittle(|r.starts|), PackLittle(|r.points|), Flat(Packed(r.starts)), Flat(r.points), b);
    hide PackLittle, Flat, Packed, ValidRecord, IsInt32;
  }
}
