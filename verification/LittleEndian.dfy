/** Ints cut into bytes by shifting right and put together by shifting left. */
module LittleEndian {
  import opened Bytes

  function Pow256(n: nat): (p: int)
    ensures p > 0
  {
    if n == 0 then 1 else 256 * Pow256(n - 1)
  }

  /** `v >> 8 * i`, which rounds down on ints. */
  function Shifted(v: int, i: nat): int
    decreases i
  {
    if i == 0 then v else Shifted(v / 256, i - 1)
  }

  /** The low bytes of `v`, `v >> 8`, `v >> 16`, ... */
  function Little(v: int, count: nat): (bytes: seq<Octet>)
    ensures |bytes| == count
  {
    seq(count, i requires 0 <= i < count => Squeeze(Shifted(v, i)))
  }

  /** `b0 | b1 << 8 | b2 << 16 ...`, which do not overlap. */
  function FromLittle(bytes: seq<Octet>): int {
    if bytes == [] then 0 else (bytes[0] as int) + 256 * FromLittle(bytes[1..])
  }

  /** The same when the last byte is shifted into the sign bit. */
  function FromLittleSigned(bytes: seq<Octet>): int {
    if bytes == [] then 0
    else if |bytes| == 1 then (if bytes[0] < 128 then bytes[0] as int else (bytes[0] as int) - 256)
    else (bytes[0] as int) + 256 * FromLittleSigned(bytes[1..])
  }

  lemma LowByteApart(v: int)
    ensures v == Squeeze(v) + 256 * (v / 256)
  {
  }

  lemma LittleCons(v: int, count: nat)
    requires count > 0
    ensures Little(v, count)[0] == Squeeze(v) && Little(v, count)[1..] == Little(v / 256, count - 1)
  {
  }

  /** What is put together is what was cut, if and only if it fits. */
  lemma {:induction false} FitsIff(v: int, count: nat)
    ensures FromLittle(Little(v, count)) == v <==> 0 <= v < Pow256(count)
    decreases count
  {
    if count > 0 {
      LowByteApart(v);
      LittleCons(v, count);
      FitsIff(v / 256, count - 1);
    }
  }

  lemma {:induction false} FitsSignedIff(v: int, n: nat)
    ensures FromLittleSigned(Little(v, n + 1)) == v <==> -128 * Pow256(n) <= v < 128 * Pow256(n)
    decreases n
  {
    LowByteApart(v);
    LittleCons(v, n + 1);
    if n > 0 {
      FitsSignedIff(v / 256, n - 1);
    }
  }
}
