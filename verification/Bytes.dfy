/** Signed 32-bit integers as four bytes, in both byte orders. */
module Bytes {
  type Byte = x: int | 0 <= x < 256 witness 0

  const TWO_31: int := 0x8000_0000
  const TWO_32: int := 0x1_0000_0000

  predicate IsInt32(n: int) { -TWO_31 <= n < TWO_31 }

  function Unsigned(b: seq<Byte>): (u: int)
    requires |b| == 4
    ensures 0 <= u < TWO_32
  {
    (b[0] as int) + 256 * ((b[1] as int) + 256 * ((b[2] as int) + 256 * (b[3] as int)))
  }

  /** `struct.unpack("<i", b)` */
  function Little(b: seq<Byte>): (n: int)
    requires |b| == 4
    ensures IsInt32(n)
  {
    var u := Unsigned(b);
    if u < TWO_31 then u else u - TWO_32
  }

  /** `struct.unpack(">i", b)` */
  function Big(b: seq<Byte>): (n: int)
    requires |b| == 4
    ensures IsInt32(n)
  {
    Little([b[3], b[2], b[1], b[0]])
  }

  function PackLittle(n: int): (b: seq<Byte>)
    requires IsInt32(n)
    ensures |b| == 4
  {
    var u := if n < 0 then n + TWO_32 else n;
    [u % 256, u / 256 % 256, u / 256 / 256 % 256, u / 256 / 256 / 256]
  }

  function PackBig(n: int): (b: seq<Byte>)
    requires IsInt32(n)
    ensures |b| == 4
  {
    var b := PackLittle(n);
    [b[3], b[2], b[1], b[0]]
  }

  lemma Digit(low: Byte, rest: nat)
    ensures (low + 256 * rest) % 256 == low && (low + 256 * rest) / 256 == rest
  {
  }

  /** Four bytes are the packed form of exactly the number they unpack to. */
  lemma LittleExactly(b: seq<Byte>, n: int)
    requires |b| == 4 && IsInt32(n)
    ensures Little(b) == n <==> b == PackLittle(n)
  {
    var u := if n < 0 then n + TWO_32 else n;
    Digit(u % 256, u / 256);
    Digit(u / 256 % 256, u / 256 / 256);
    Digit(u / 256 / 256 % 256, u / 256 / 256 / 256);
    assert Unsigned(PackLittle(n)) == u;
    if Little(b) == n {
      assert Unsigned(b) == u;
      Digit(b[0], (b[1] as int) + 256 * ((b[2] as int) + 256 * (b[3] as int)));
      Digit(b[1], (b[2] as int) + 256 * (b[3] as int));
      Digit(b[2], b[3]);
    }
  }

  lemma BigExactly(b: seq<Byte>, n: int)
    requires |b| == 4 && IsInt32(n)
    ensures Big(b) == n <==> b == PackBig(n)
  {
    var r := [b[3], b[2], b[1], b[0]];
    LittleExactly(r, n);
    hide Little, PackLittle;
    if b == PackBig(n) {
      assert r == PackLittle(n);
    }
  }
}
