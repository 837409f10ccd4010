/** Bytes, and the conversions a C++ int undergoes on its way into and out of one. */
module Bytes {
  type Byte = bv8

  /** A byte as an int. */
  type Octet = n: int | 0 <= n < 256

  function ByteOf(octet: Octet): Byte { octet as bv8 }

  /** What a byte vector keeps of an int that is pushed into it. */
  function Squeeze(n: int): Octet { n % 256 }

  lemma DoubledByte(b: Byte)
    requires b < 128
    ensures (b << 1) as int == 2 * (b as int) && ((b << 1) | 1) as int == 2 * (b as int) + 1
  {
  }

  lemma HalfRange(b: Byte)
    requires b as int < 128
    ensures b < 128
  {
  }

  /** Every octet is the value of some byte, built bit by bit. */
  lemma {:induction false} ByteWithValue(octet: Octet) returns (b: Byte)
    ensures b as int == octet
  {
    if octet == 0 {
      b := 0;
    } else {
      var half := ByteWithValue(octet / 2);
      HalfRange(half);
      DoubledByte(half);
      b := if octet % 2 == 0 then half << 1 else (half << 1) | 1;
    }
  }

  lemma SameValueSameByte(octet: Octet, b: Byte)
    requires b as int == octet
    ensures octet as bv8 == b
  {
  }

  lemma ByteValue(octet: Octet)
    ensures ByteOf(octet) as int == octet
  {
    var b := ByteWithValue(octet);
    SameValueSameByte(octet, b);
  }

  function AsBytes(octets: seq<Octet>): (bytes: seq<Byte>)
    ensures |bytes| == |octets|
  {
    seq(|octets|, i requires 0 <= i < |octets| => ByteOf(octets[i]))
  }

  function AsOctets(bytes: seq<Byte>): (octets: seq<Octet>)
    ensures |octets| == |bytes|
  {
    seq(|bytes|, i requires 0 <= i < |bytes| => bytes[i] as Octet)
  }

  lemma BytesOfOctets(bytes: seq<Byte>)
    ensures AsBytes(AsOctets(bytes)) == bytes
  {
    forall i | 0 <= i < |bytes| ensures AsBytes(AsOctets(bytes))[i] == bytes[i] {
      SameValueSameByte(bytes[i] as Octet, bytes[i]);
    }
  }

  lemma Regroup<T>(a: seq<T>, b: seq<T>, c: seq<T>)
    ensures a + (b + c) == (a + b) + c
  {
  }

  function LowByte(w: bv16): Byte { (w & 0xff) as bv8 }

  function HighByte(w: bv16): Byte { (w >> 8) as bv8 }

  /** `/` on C++ ints truncates towards zero; Dafny's is Euclidean. */
  function TruncDiv(n: int, d: int): int
    requires d > 0
  {
    if n >= 0 then n / d else -((-n) / d)
  }

  /** The quotient is the one that leaves a remainder of the dividend's sign. */
  lemma TruncDivMeans(n: int, d: int)
    requires d > 0
    ensures var r := n - d * TruncDiv(n, d); -d < r < d && (n >= 0 ==> r >= 0) && (n <= 0 ==> r <= 0)
  {
    Division(n, d);
    Division(-n, d);
    assert d * -(-n / d) == -(d * (-n / d));
  }

  /** An integer in 32 bits, wrapped around. */
  function Int32(n: int): (m: int)
    ensures -0x8000_0000 <= m < 0x8000_0000
    ensures -0x8000_0000 <= n < 0x8000_0000 ==> m == n
  {
    (n + 0x8000_0000) % 0x1_0000_0000 - 0x8000_0000
  }

  /** Wrapping around takes off a multiple of 2 to the 32nd. */
  lemma Int32Means(n: int)
    ensures exists k :: n == Int32(n) + 0x1_0000_0000 * k
  {
    var k := (n + 0x8000_0000) / 0x1_0000_0000;
    Division(n + 0x8000_0000, 0x1_0000_0000);
    assert n == Int32(n) + 0x1_0000_0000 * k;
  }

  /** No quotient of a wrapped number by a small divisor is that of the number itself. */
  lemma WrappedQuotient(n: int, d: int)
    requires d == 10 || d == 1000
    ensures TruncDiv(Int32(n), d) == TruncDiv(n, d) <==> -0x8000_0000 <= n < 0x8000_0000
    ensures -0x8000_0000 <= TruncDiv(Int32(n), d) < 0x8000_0000
  {
  }

  lemma AtLeast(d: nat, k: nat)
    requires k >= 1
    ensures d * k >= d
  {
  }

  lemma TimesDifference(d: int, p: int, q: int)
    ensures d * (p - q) == d * p - d * q
  {
  }

  lemma SameQuotient(d: int, p: int, s: int, q: int, r: int)
    requires 0 <= r < d && 0 <= s < d && d * p + s == d * q + r
    ensures p == q
  {
    TimesDifference(d, p, q);
    TimesDifference(d, q, p);
    if p > q {
      AtLeast(d, p - q);
    } else if p < q {
      AtLeast(d, q - p);
    }
  }

  lemma Division(x: int, d: int)
    requires d > 0
    ensures x == d * (x / d) + x % d && 0 <= x % d < d
  {
  }

  /** Quotient and remainder are the only ones. */
  lemma Divides(x: int, d: int, q: int, r: int)
    requires 0 <= r < d && x == d * q + r
    ensures x / d == q && x % d == r
  {
    Division(x, d);
    SameQuotient(d, x / d, x % d, q, r);
  }
}
