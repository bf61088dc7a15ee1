/** Big-endian integers and length-prefixed frames. */
module Encoding {
  import opened Base

  const TWO_64 := 0x1_0000_0000_0000_0000

  function Pow256(n: nat): (p: nat)
    ensures p > 0
  {
    if n == 0 then 1 else 256 * Pow256(n - 1)
  }

  /** `x` in `n` bytes, most significant first; higher digits are lost. */
  function BigEndian(x: nat, n: nat): (s: Bytes)
    ensures |s| == n
  {
    if n == 0 then [] else BigEndian(x / 256, n - 1) + [x % 256]
  }

  function FromBigEndian(s: Bytes): nat {
    if s == [] then 0 else 256 * FromBigEndian(s[..|s| - 1]) + s[|s| - 1]
  }

  lemma {:induction false} BigEndianRoundTrip(x: nat, n: nat)
    requires x < Pow256(n)
    ensures FromBigEndian(BigEndian(x, n)) == x
  {
    if n > 0 {
      BigEndianRoundTrip(x / 256, n - 1);
      var s := BigEndian(x, n);
      assert s[..|s| - 1] == BigEndian(x / 256, n - 1);
    }
  }

  lemma {:induction false} EightBytes()
    ensures Pow256(8) == TWO_64
  {
    assert Pow256(4) == 0x1_0000_0000;
    assert Pow256(8) == 256 * 256 * 256 * 256 * Pow256(4);
  }

  /** What does not fit the bytes does not show in them: they are the same for the wrapped number. */
  lemma {:induction false} HighDigitsAreLost(x: nat, y: nat, n: nat)
    ensures BigEndian(x + y * Pow256(n), n) == BigEndian(x, n)
  {
    if n > 0 {
      var z := y * Pow256(n - 1);
      assert y * Pow256(n) == 256 * z;
      assert (x + 256 * z) / 256 == x / 256 + z && (x + 256 * z) % 256 == x % 256;
      HighDigitsAreLost(x / 256, y, n - 1);
    }
  }

  /** `to_be_bytes` of a 64-bit integer: the low 64 bits; a negative one in two's complement. */
  function Be64(x: int): (s: Bytes)
    requires -TWO_64 <= x
    ensures |s| == 8
  {
    BigEndian(if x < 0 then x + TWO_64 else x, 8)
  }

  predicate SameWidth(x: int, y: int) {
    (0 <= x < TWO_64 && 0 <= y < TWO_64) || (-TWO_64 / 2 <= x < TWO_64 / 2 && -TWO_64 / 2 <= y < TWO_64 / 2)
  }

  lemma {:induction false} Be64Injective(x: int, y: int)
    requires SameWidth(x, y) && Be64(x) == Be64(y)
    ensures x == y
  {
    EightBytes();
    BigEndianRoundTrip(if x < 0 then x + TWO_64 else x, 8);
    BigEndianRoundTrip(if y < 0 then y + TWO_64 else y, 8);
  }

  /** What a 64-bit machine can hold in one byte string. */
  predicate Addressable(b: Bytes) {
    |b| < TWO_64
  }

  /** `frame`: the length, then the bytes. */
  function Frame(b: Bytes): Bytes {
    Be64(|b|) + b
  }

  /** A frame can be told apart from what follows it. */
  lemma {:induction false} FrameIsPrefixFree(a: Bytes, r: Bytes, b: Bytes, s: Bytes)
    requires Addressable(a) && Addressable(b) && Frame(a) + r == Frame(b) + s
    ensures a == b && r == s
  {
    var x, y := Frame(a) + r, Frame(b) + s;
    assert x[..8] == Be64(|a|) && y[..8] == Be64(|b|);
    Be64Injective(|a|, |b|);
    assert x[8..8 + |a|] == a && y[8..8 + |b|] == b;
    assert x[8 + |a|..] == r && y[8 + |b|..] == s;
  }
}
