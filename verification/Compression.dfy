/** The SHA-256 compression function: the recursive definition of FIPS 180-4, section 6.2.2, and the two
    loops that compute it in place. */
module Compression {
  import opened Base
  import opened Encoding
  import opened Sha256

  /** Eight rows of eight. */
  const ROUND_CONSTANTS: seq<Words> := [
    [0x428a2f98, 0x71374491, 0xb5c0fbcf, 0xe9b5dba5, 0x3956c25b, 0x59f111f1, 0x923f82a4, 0xab1c5ed5],
    [0xd807aa98, 0x12835b01, 0x243185be, 0x550c7dc3, 0x72be5d74, 0x80deb1fe, 0x9bdc06a7, 0xc19bf174],
    [0xe49b69c1, 0xefbe4786, 0x0fc19dc6, 0x240ca1cc, 0x2de92c6f, 0x4a7484aa, 0x5cb0a9dc, 0x76f988da],
    [0x983e5152, 0xa831c66d, 0xb00327c8, 0xbf597fc7, 0xc6e00bf3, 0xd5a79147, 0x06ca6351, 0x14292967],
    [0x27b70a85, 0x2e1b2138, 0x4d2c6dfc, 0x53380d13, 0x650a7354, 0x766a0abb, 0x81c2c92e, 0x92722c85],
    [0xa2bfe8a1, 0xa81a664b, 0xc24b8b70, 0xc76c51a3, 0xd192e819, 0xd6990624, 0xf40e3585, 0x106aa070],
    [0x19a4c116, 0x1e376c08, 0x2748774c, 0x34b0bcb5, 0x391c0cb3, 0x4ed8aa4a, 0x5b9cca4f, 0x682e6ff3],
    [0x748f82ee, 0x78a5636f, 0x84c87814, 0x8cc70208, 0x90befffa, 0xa4506ceb, 0xbef9a3f7, 0xc67178f2]]

  function RoundConstant(t: nat): nat
    requires t < 64
  {
    ROUND_CONSTANTS[t / 8][t % 8]
  }

  // 32-bit words, as the numbers below 2^32

  const TWO_32 := 0x1_0000_0000

  /** `wrapping_add`. */
  function Add(x: nat, y: nat): nat {
    (x + y) % TWO_32
  }

  function Xor(x: nat, y: nat): nat
    decreases x + y
  {
    if x == 0 && y == 0 then 0 else 2 * Xor(x / 2, y / 2) + if x % 2 != y % 2 then 1 else 0
  }

  function And(x: nat, y: nat): nat
    decreases x + y
  {
    if x == 0 && y == 0 then 0 else 2 * And(x / 2, y / 2) + if x % 2 == 1 && y % 2 == 1 then 1 else 0
  }

  function Not(x: nat): nat {
    Xor(x, TWO_32 - 1)
  }

  function ShiftRight(x: nat, k: nat): nat
    decreases k
  {
    if k == 0 then x else ShiftRight(x / 2, k - 1)
  }

  function RotateRight(x: nat, k: nat): nat
    decreases k
  {
    if k == 0 then x else RotateRight(x / 2 + if x % 2 == 1 then TWO_32 / 2 else 0, k - 1)
  }

  // The operations on words, bit by bit

  predicate Bit(x: nat, i: nat) {
    if i == 0 then x % 2 == 1 else Bit(x / 2, i - 1)
  }

  lemma {:induction false} XorBit(x: nat, y: nat, i: nat)
    ensures Bit(Xor(x, y), i) <==> (Bit(x, i) != Bit(y, i))
    decreases i
  {
    if i > 0 { XorBit(x / 2, y / 2, i - 1); }
  }

  lemma {:induction false} AndBit(x: nat, y: nat, i: nat)
    ensures Bit(And(x, y), i) <==> Bit(x, i) && Bit(y, i)
    decreases i
  {
    if i > 0 { AndBit(x / 2, y / 2, i - 1); }
  }

  lemma {:induction false} ShiftBit(x: nat, k: nat, i: nat)
    ensures Bit(ShiftRight(x, k), i) <==> Bit(x, i + k)
    decreases k
  {
    if k > 0 { ShiftBit(x / 2, k - 1, i); }
  }

  function Power(k: nat): (p: nat)
    ensures p > 0
  {
    if k == 0 then 1 else 2 * Power(k - 1)
  }

  /** A power of two above a number sets its own bit and no other. */
  lemma {:induction false} PowerBit(a: nat, k: nat, i: nat)
    requires a < Power(k) && i <= k
    ensures Bit(a + Power(k), i) <==> i == k || Bit(a, i)
    ensures !Bit(a, k)
    decreases k
  {
    if k > 0 {
      assert (a + Power(k)) / 2 == a / 2 + Power(k - 1) && (a + Power(k)) % 2 == a % 2;
      PowerBit(a / 2, k - 1, if i == 0 then 0 else i - 1);
    }
  }

  lemma {:induction false} WordWidth()
    ensures Power(31) == TWO_32 / 2
  {
    assert Power(8) == 0x100;
    assert Power(16) == 0x1_0000;
    assert Power(24) == 0x100_0000;
  }

  /** Rotation moves every bit of a word down by `k`, around the end. */
  lemma {:induction false} RotateBit(x: nat, k: nat, i: nat)
    requires x < TWO_32 && i < 32
    ensures RotateRight(x, k) < TWO_32
    ensures Bit(RotateRight(x, k), i) <==> Bit(x, (i + k) % 32)
    decreases k
  {
    if k > 0 {
      var y := x / 2 + if x % 2 == 1 then TWO_32 / 2 else 0;
      RotateBit(y, k - 1, i);
      RotateOnce(x, (i + k - 1) % 32);
      NextPlace(i + k - 1);
    }
  }

  lemma {:induction false} NextPlace(n: nat)
    ensures (n % 32 + 1) % 32 == (n + 1) % 32
  {
  }

  lemma {:induction false} RotateOnce(x: nat, j: nat)
    requires x < TWO_32 && j < 32
    ensures var y := x / 2 + if x % 2 == 1 then TWO_32 / 2 else 0;
            y < TWO_32 && (Bit(y, j) <==> Bit(x, (j + 1) % 32))
  {
    WordWidth();
    PowerBit(x / 2, 31, j);
    if j < 31 {
      assert (j + 1) % 32 == j + 1;
    }
  }

  function SmallSigma0(x: nat): nat { Xor(Xor(RotateRight(x, 7), RotateRight(x, 18)), ShiftRight(x, 3)) }

  function SmallSigma1(x: nat): nat { Xor(Xor(RotateRight(x, 17), RotateRight(x, 19)), ShiftRight(x, 10)) }

  function BigSigma0(x: nat): nat { Xor(Xor(RotateRight(x, 2), RotateRight(x, 13)), RotateRight(x, 22)) }

  function BigSigma1(x: nat): nat { Xor(Xor(RotateRight(x, 6), RotateRight(x, 11)), RotateRight(x, 25)) }

  function Choice(e: nat, f: nat, g: nat): nat { Xor(And(e, f), And(Not(e), g)) }

  function Majority(a: nat, b: nat, c: nat): nat { Xor(Xor(And(a, b), And(a, c)), And(b, c)) }

  /** Word `i` of a block, most significant byte first. */
  function Word(block: Bytes, i: nat): nat
    requires |block| == 64 && i < 16
  {
    FromBigEndian(block[4 * i..4 * i + 4])
  }

  /** The word that follows the given ones in the message schedule. */
  function NextWord(block: Bytes, w: Words): nat
    requires |block| == 64 && |w| < 64
  {
    var t := |w|;
    if t < 16 then Word(block, t) else Add(Add(Add(w[t - 16], SmallSigma0(w[t - 15])), w[t - 7]), SmallSigma1(w[t - 2]))
  }

  /** The first `n` words of the message schedule. */
  function Schedule(block: Bytes, n: nat): (w: Words)
    requires |block| == 64 && n <= 64
    ensures |w| == n
  {
    if n == 0 then [] else Schedule(block, n - 1) + [NextWord(block, Schedule(block, n - 1))]
  }

  datatype Working = Working(a: nat, b: nat, c: nat, d: nat, e: nat, f: nat, g: nat, h: nat)

  function Round(v: Working, k: nat, w: nat): Working {
    var t1 := Add(Add(Add(Add(v.h, BigSigma1(v.e)), Choice(v.e, v.f, v.g)), k), w);
    var t2 := Add(BigSigma0(v.a), Majority(v.a, v.b, v.c));
    Working(Add(t1, t2), v.a, v.b, v.c, Add(v.d, t1), v.e, v.f, v.g)
  }

  function Rounds(v: Working, w: Words, t: nat): Working
    requires |w| == 64 && t <= 64
  {
    if t == 0 then v else Round(Rounds(v, w, t - 1), RoundConstant(t - 1), w[t - 1])
  }

  function Load(state: Words): Working
    requires |state| == 8
  {
    Working(state[0], state[1], state[2], state[3], state[4], state[5], state[6], state[7])
  }

  function Added(state: Words, v: Working): (r: Words)
    requires |state| == 8
    ensures |r| == 8
  {
    [Add(state[0], v.a), Add(state[1], v.b), Add(state[2], v.c), Add(state[3], v.d),
     Add(state[4], v.e), Add(state[5], v.f), Add(state[6], v.g), Add(state[7], v.h)]
  }

  function Compress(state: Words, block: Bytes): (r: Words)
    requires |state| == 8 && |block| == 64
    ensures |r| == 8
  {
    Added(state, Rounds(Load(state), Schedule(block, 64), 64))
  }

  method FillSchedule(block: Bytes) returns (w: array<nat>)
    requires |block| == 64
    ensures fresh(w) && w.Length == 64 && w[..] == Schedule(block, 64)
  {
    w := new nat[64];
    for t := 0 to 16
      invariant w[..t] == Schedule(block, t)
    {
      w[t] := Word(block, t);
      assert w[..t + 1] == w[..t] + [NextWord(block, w[..t])];
    }
    for t := 16 to 64
      invariant w[..t] == Schedule(block, t)
    {
      w[t] := Add(Add(Add(w[t - 16], SmallSigma0(w[t - 15])), w[t - 7]), SmallSigma1(w[t - 2]));
      assert w[..t + 1] == w[..t] + [NextWord(block, w[..t])];
    }
    assert w[..64] == w[..];
  }

  method RunRounds(start: Working, w: array<nat>) returns (v: Working)
    requires w.Length == 64
    ensures v == Rounds(start, w[..], 64)
  {
    var a, b, c, d, e, f, g, h := start.a, start.b, start.c, start.d, start.e, start.f, start.g, start.h;
    for t := 0 to 64
      invariant Working(a, b, c, d, e, f, g, h) == Rounds(start, w[..], t)
    {
      ghost var now := Working(a, b, c, d, e, f, g, h);
      var t1 := Add(Add(Add(Add(h, BigSigma1(e)), Choice(e, f, g)), RoundConstant(t)), w[t]);
      var t2 := Add(BigSigma0(a), Majority(a, b, c));
      h := g;
      g := f;
      f := e;
      e := Add(d, t1);
      d := c;
      c := b;
      b := a;
      a := Add(t1, t2);
      assert Working(a, b, c, d, e, f, g, h) == Round(now, RoundConstant(t), w[..][t]);
    }
    v := Working(a, b, c, d, e, f, g, h);
  }

  /** The compression in place. */
  method CompressInto(state: array<nat>, block: Bytes)
    requires state.Length == 8 && |block| == 64
    modifies state
    ensures state[..] == Compress(old(state[..]), block)
  {
    var w := FillSchedule(block);
    var v := RunRounds(Working(state[0], state[1], state[2], state[3], state[4], state[5], state[6], state[7]), w);
    AddInto(state, v);
  }

  method AddInto(state: array<nat>, v: Working)
    requires state.Length == 8
    modifies state
    ensures state[..] == Added(old(state[..]), v)
  {
    state[0], state[1], state[2], state[3] :=
      Add(state[0], v.a), Add(state[1], v.b), Add(state[2], v.c), Add(state[3], v.d);
    state[4], state[5], state[6], state[7] :=
      Add(state[4], v.e), Add(state[5], v.f), Add(state[6], v.g), Add(state[7], v.h);
  }

  /** The compression function as a value, for the hashers. */
  function Sha256Compression(): Compressor {
    (state: Words, block: Bytes) => if |state| == 8 && |block| == 64 then Compress(state, block) else state
  }

  // SHA-256 of FIPS 180-4: the hashers over this compression

  /** The compression as the hashers see it. */
  lemma {:induction false} CompressionIs(state: Words, block: Bytes)
    requires |state| == 8 && |block| == 64
    ensures Sha256Compression()(state, block) == Compress(state, block)
    ensures |Sha256Compression()(state, block)| == 8
  {
  }

  lemma {:induction false} CompressionKeepsWidth()
    ensures KeepsWidth(Sha256Compression())
  {
    forall state: Words, block: Bytes | |state| == 8 && |block| == 64
      ensures |Sha256Compression()(state, block)| == 8
    {
      CompressionIs(state, block);
    }
  }

  /** SHA-256: the digest of the hashers over this compression. */
  function Sha256Of(m: Bytes): Bytes {
    Digest(Sha256Compression(), m)
  }

  lemma {:induction false} Sha256Has32Bytes(m: Bytes)
    ensures |Sha256Of(m)| == 32
  {
    CompressionKeepsWidth();
    FinishHas32Bytes(Sha256Compression(), m, 8 * |m|);
  }

  /** One block, in place. */
  method CompressBlock(state: array<nat>, padded: Bytes, n: nat)
    requires state.Length == 8 && 64 * (n + 1) <= |padded|
    requires state[..] == HashBlocks(Sha256Compression(), padded, n)
    modifies state
    ensures state[..] == HashBlocks(Sha256Compression(), padded, n + 1)
  {
    var block := padded[64 * n..64 * (n + 1)];
    CompressionIs(state[..], block);
    CompressInto(state, block);
  }

  /** All blocks, in place. */
  method HashInPlace(padded: Bytes) returns (state: array<nat>)
    requires |padded| % 64 == 0
    ensures fresh(state) && state[..] == HashBlocks(Sha256Compression(), padded, |padded| / 64)
  {
    state := new nat[8](i requires 0 <= i < 8 => INITIAL[i]);
    assert state[..] == INITIAL;
    for n := 0 to |padded| / 64
      invariant state.Length == 8 && fresh(state)
      invariant state[..] == HashBlocks(Sha256Compression(), padded, n)
    {
      CompressBlock(state, padded, n);
    }
  }

  /** The one-shot function with its state in an array, compressed in place. */
  method Sha256Sum(input: Bytes) returns (digest: Bytes)
    ensures digest == Sha256Of(input) && |digest| == 32
  {
    var padded := PadMessage(input);
    var state := HashInPlace(padded);
    digest := StateBytes(state[..]);
    Sha256Has32Bytes(input);
  }
}
