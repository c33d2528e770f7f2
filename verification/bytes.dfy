/** Fixed-width big-endian encodings of Java `long` and `int` values, the way
    `Bytes.toBytes(long)` / `Bytes.toBytes(int)` lay them out, with the matching
    decoders `Bytes.toLong` / `Bytes.toInt`.

    Model integers are unbounded; the encoders take the value modulo 2^64
    (resp. 2^32), which is exactly the two's-complement bit pattern of a value
    in the Java range, so the encoders are total. */
module Bytes {

  type byte = x: int | 0 <= x < 256

  const TWO_TO_THE_32: int := 0x1_0000_0000
  const TWO_TO_THE_63: int := 0x8000_0000_0000_0000
  const TWO_TO_THE_64: int := 0x1_0000_0000_0000_0000

  /** Values representable as a Java `long`. */
  predicate InLongRange(x: int) {
    -TWO_TO_THE_63 <= x < TWO_TO_THE_63
  }

  /** Values representable as a Java `int`. */
  predicate InIntRange(x: int) {
    -TWO_TO_THE_32 / 2 <= x < TWO_TO_THE_32 / 2
  }

  function Pow256(n: nat): (r: int)
    ensures r >= 1
  {
    if n == 0 then 1 else 256 * Pow256(n - 1)
  }

  /** Big-endian `n`-byte encoding of `u mod 256^n`. */
  function Unsigned(u: int, n: nat): (r: seq<byte>)
    ensures |r| == n
    decreases n
  {
    if n == 0 then [] else Unsigned(u / 256, n - 1) + [u % 256]
  }

  /** Big-endian reading of a byte string as a non-negative number. */
  function ToUnsigned(b: seq<byte>): (r: int)
    ensures 0 <= r < Pow256(|b|)
  {
    if |b| == 0 then 0 else ToUnsigned(b[..|b| - 1]) * 256 + b[|b| - 1]
  }

  /** `Bytes.toBytes(long)`: 8 bytes, most significant first. */
  function LongBytes(x: int): seq<byte> {
    Unsigned(x % TWO_TO_THE_64, 8)
  }

  /** `Bytes.toBytes(int)`: 4 bytes, most significant first. */
  function IntBytes(x: int): seq<byte> {
    Unsigned(x % TWO_TO_THE_32, 4)
  }

  /** `Bytes.toLong` on an 8-byte array: the two's-complement reading. */
  function DecodeLong(b: seq<byte>): (x: int)
    requires |b| == 8
    ensures InLongRange(x)
  {
    Pow256Values();
    var u := ToUnsigned(b);
    if u >= TWO_TO_THE_63 then u - TWO_TO_THE_64 else u
  }

  /** `Bytes.toInt` on a 4-byte array: the two's-complement reading. */
  function DecodeInt(b: seq<byte>): (x: int)
    requires |b| == 4
    ensures InIntRange(x)
  {
    Pow256Values();
    var u := ToUnsigned(b);
    if u >= TWO_TO_THE_32 / 2 then u - TWO_TO_THE_32 else u
  }

  lemma Pow256Values()
    ensures Pow256(4) == TWO_TO_THE_32
    ensures Pow256(8) == TWO_TO_THE_64
  {
  }

  /** Reading back an unsigned encoding gives the number, when it fits. */
  lemma {:induction false} UnsignedRoundTrip(u: int, n: nat)
    requires 0 <= u < Pow256(n)
    ensures ToUnsigned(Unsigned(u, n)) == u
  {
    if n > 0 {
      var b := Unsigned(u, n);
      assert b[..n - 1] == Unsigned(u / 256, n - 1);
      assert u / 256 < Pow256(n - 1);
      UnsignedRoundTrip(u / 256, n - 1);
    }
  }

  /** `Bytes.toLong(Bytes.toBytes(x)) == x` for every Java long. */
  lemma LongRoundTrip(x: int)
    requires InLongRange(x)
    ensures |LongBytes(x)| == 8
    ensures DecodeLong(LongBytes(x)) == x
  {
    Pow256Values();
    var u := x % TWO_TO_THE_64;
    if x < 0 {
      assert u == x + TWO_TO_THE_64;
    } else {
      assert u == x;
    }
    UnsignedRoundTrip(u, 8);
  }

  /** `Bytes.toInt(Bytes.toBytes(x)) == x` for every Java int. */
  lemma IntRoundTrip(x: int)
    requires InIntRange(x)
    ensures |IntBytes(x)| == 4
    ensures DecodeInt(IntBytes(x)) == x
  {
    Pow256Values();
    var u := x % TWO_TO_THE_32;
    if x < 0 {
      assert u == x + TWO_TO_THE_32;
    } else {
      assert u == x;
    }
    UnsignedRoundTrip(u, 4);
  }

  /** Distinct Java longs have distinct encodings. */
  lemma LongBytesInjective(x: int, y: int)
    requires InLongRange(x) && InLongRange(y)
    ensures LongBytes(x) == LongBytes(y) <==> x == y
  {
    LongRoundTrip(x);
    LongRoundTrip(y);
  }

  /** Distinct Java ints have distinct encodings. */
  lemma IntBytesInjective(x: int, y: int)
    requires InIntRange(x) && InIntRange(y)
    ensures IntBytes(x) == IntBytes(y) <==> x == y
  {
    IntRoundTrip(x);
    IntRoundTrip(y);
  }

  /** Lexicographic (unsigned byte) order, as the table orders row keys. */
  ghost predicate LexLess(a: seq<byte>, b: seq<byte>) {
    exists k :: 0 <= k < |a| && k < |b| && a[..k] == b[..k] && a[k] < b[k]
  }

  lemma {:induction false} UnsignedOrdered(a: int, b: int, n: nat)
    requires 0 <= a < b < Pow256(n)
    ensures LexLess(Unsigned(a, n), Unsigned(b, n))
  {
    var ua, ub := Unsigned(a, n), Unsigned(b, n);
    assert n > 0;
    var pa, pb := Unsigned(a / 256, n - 1), Unsigned(b / 256, n - 1);
    assert ua == pa + [a % 256] && ub == pb + [b % 256];
    assert b / 256 < Pow256(n - 1);
    if a / 256 < b / 256 {
      UnsignedOrdered(a / 256, b / 256, n - 1);
      var k :| 0 <= k < |pa| && k < |pb| && pa[..k] == pb[..k] && pa[k] < pb[k];
      assert ua[..k] == pa[..k] && ub[..k] == pb[..k];
      assert ua[k] == pa[k] && ub[k] == pb[k];
    } else {
      assert a / 256 == b / 256;
      assert a % 256 < b % 256;
      assert ua[..n - 1] == pa && ub[..n - 1] == pb;
      assert ua[n - 1] < ub[n - 1];
    }
  }

  /** For non-negative longs the encoding is order preserving, so a range
      scan over encoded ids visits them in numeric order. */
  lemma LongBytesOrdered(a: int, b: int)
    requires 0 <= a < b < TWO_TO_THE_63
    ensures LexLess(LongBytes(a), LongBytes(b))
  {
    Pow256Values();
    assert a % TWO_TO_THE_64 == a && b % TWO_TO_THE_64 == b;
    UnsignedOrdered(a, b, 8);
  }

  /** A shared prefix keeps lexicographic order. */
  lemma LexLessPrefix(p: seq<byte>, a: seq<byte>, b: seq<byte>)
    requires LexLess(a, b)
    ensures LexLess(p + a, p + b)
  {
    var k :| 0 <= k < |a| && k < |b| && a[..k] == b[..k] && a[k] < b[k];
    var j := |p| + k;
    assert (p + a)[..j] == p + a[..k];
    assert (p + b)[..j] == p + b[..k];
    assert (p + a)[j] == a[k] && (p + b)[j] == b[k];
  }
}
