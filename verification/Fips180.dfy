/** The compression function against the text of FIPS 180-4: its logical functions bit by bit, its schedule and
    rounds as sums modulo 2^32, and its constants as the roots they are taken from. */
module Fips180 {
  import opened Base
  import opened Encoding
  import opened Sha256
  import opened Compression

  // Section 4.1.2: the functions, bit by bit

  /** `Not` is the complement of a word. */
  lemma {:induction false} NotBit(x: nat, i: nat)
    requires i < 32
    ensures Bit(Not(x), i) <==> !Bit(x, i)
  {
    XorBit(x, TWO_32 - 1, i);
    AllOnes(32, i);
    PowersOfTwo();
  }

  lemma {:induction false} AllOnes(n: nat, i: nat)
    requires i < n
    ensures Bit(Power(n) - 1, i)
  {
    assert (Power(n) - 1) % 2 == 1 && (Power(n) - 1) / 2 == Power(n - 1) - 1;
    if i > 0 { AllOnes(n - 1, i - 1); }
  }

  lemma {:induction false} PowersOfTwo()
    ensures Power(32) == 0x1_0000_0000
  {
    WordWidth();
  }

  /** The choice takes each bit from `f` where `e` has a one, and from `g` elsewhere. */
  lemma {:induction false} ChoiceBit(e: nat, f: nat, g: nat, i: nat)
    requires i < 32
    ensures Bit(Choice(e, f, g), i) <==> if Bit(e, i) then Bit(f, i) else Bit(g, i)
  {
    XorBit(And(e, f), And(Not(e), g), i);
    AndBit(e, f, i);
    AndBit(Not(e), g, i);
    NotBit(e, i);
  }

  /** The majority has a one exactly where at least two of the three have. */
  lemma {:induction false} MajorityBit(a: nat, b: nat, c: nat, i: nat)
    ensures Bit(Majority(a, b, c), i) <==>
            (Bit(a, i) && Bit(b, i)) || (Bit(a, i) && Bit(c, i)) || (Bit(b, i) && Bit(c, i))
  {
    XorBit(Xor(And(a, b), And(a, c)), And(b, c), i);
    XorBit(And(a, b), And(a, c), i);
    AndBit(a, b, i);
    AndBit(a, c, i);
    AndBit(b, c, i);
  }

  /** An odd number of the three. */
  predicate Odd(p: bool, q: bool, r: bool) {
    (p != q) != r
  }

  lemma {:induction false} BigSigma0Bits(x: nat, i: nat)
    requires x < TWO_32 && i < 32
    ensures Bit(BigSigma0(x), i) <==> Odd(Bit(x, (i + 2) % 32), Bit(x, (i + 13) % 32), Bit(x, (i + 22) % 32))
  {
    ThreeRotations(x, 2, 13, 22, i);
  }

  lemma {:induction false} BigSigma1Bits(x: nat, i: nat)
    requires x < TWO_32 && i < 32
    ensures Bit(BigSigma1(x), i) <==> Odd(Bit(x, (i + 6) % 32), Bit(x, (i + 11) % 32), Bit(x, (i + 25) % 32))
  {
    ThreeRotations(x, 6, 11, 25, i);
  }

  lemma {:induction false} ThreeRotations(x: nat, j: nat, k: nat, l: nat, i: nat)
    requires x < TWO_32 && i < 32
    ensures Bit(Xor(Xor(RotateRight(x, j), RotateRight(x, k)), RotateRight(x, l)), i) <==>
            Odd(Bit(x, (i + j) % 32), Bit(x, (i + k) % 32), Bit(x, (i + l) % 32))
  {
    XorBit(Xor(RotateRight(x, j), RotateRight(x, k)), RotateRight(x, l), i);
    XorBit(RotateRight(x, j), RotateRight(x, k), i);
    RotateBit(x, j, i);
    RotateBit(x, k, i);
    RotateBit(x, l, i);
  }

  /** A shift brings in zeros. */
  lemma {:induction false} SmallSigma0Bits(x: nat, i: nat)
    requires x < TWO_32 && i < 32
    ensures Bit(SmallSigma0(x), i) <==> Odd(Bit(x, (i + 7) % 32), Bit(x, (i + 18) % 32), i + 3 < 32 && Bit(x, i + 3))
  {
    TwoRotationsAndAShift(x, 7, 18, 3, i);
  }

  lemma {:induction false} SmallSigma1Bits(x: nat, i: nat)
    requires x < TWO_32 && i < 32
    ensures Bit(SmallSigma1(x), i) <==> Odd(Bit(x, (i + 17) % 32), Bit(x, (i + 19) % 32), i + 10 < 32 && Bit(x, i + 10))
  {
    TwoRotationsAndAShift(x, 17, 19, 10, i);
  }

  lemma {:induction false} TwoRotationsAndAShift(x: nat, j: nat, k: nat, l: nat, i: nat)
    requires x < TWO_32 && i < 32
    ensures Bit(Xor(Xor(RotateRight(x, j), RotateRight(x, k)), ShiftRight(x, l)), i) <==>
            Odd(Bit(x, (i + j) % 32), Bit(x, (i + k) % 32), i + l < 32 && Bit(x, i + l))
  {
    XorBit(Xor(RotateRight(x, j), RotateRight(x, k)), ShiftRight(x, l), i);
    XorBit(RotateRight(x, j), RotateRight(x, k), i);
    RotateBit(x, j, i);
    RotateBit(x, k, i);
    ShiftBit(x, l, i);
    PowersOfTwo();
    if i + l >= 32 { NoHighBits(x, 32, i + l); }
  }

  lemma {:induction false} NoHighBits(x: nat, n: nat, i: nat)
    requires x < Power(n) && n <= i
    ensures !Bit(x, i)
    decreases i
  {
    if i > 0 {
      NoHighBits(x / 2, if n == 0 then 0 else n - 1, i - 1);
    }
  }

  /** The bits of a word determine it. */
  lemma {:induction false} BitsDetermine(x: nat, y: nat, n: nat)
    requires x < Power(n) && y < Power(n) && forall i: nat | i < n :: Bit(x, i) == Bit(y, i)
    ensures x == y
  {
    if n > 0 {
      forall i: nat | i < n - 1 ensures Bit(x / 2, i) == Bit(y / 2, i) {
        assert Bit(x, i + 1) == Bit(x / 2, i) && Bit(y, i + 1) == Bit(y / 2, i);
      }
      BitsDetermine(x / 2, y / 2, n - 1);
      assert Bit(x, 0) == Bit(y, 0);
    }
  }

  // Section 6.2.2: the schedule and the rounds, as sums modulo 2^32

  lemma {:induction false} ScheduleGrows(block: Bytes, n: nat, t: nat)
    requires |block| == 64 && t <= n <= 64
    ensures Schedule(block, n)[..t] == Schedule(block, t)
  {
    if t < n {
      ScheduleGrows(block, n - 1, t);
      assert Schedule(block, n)[..t] == Schedule(block, n - 1)[..t];
    }
  }

  lemma {:induction false} ScheduleAt(block: Bytes, n: nat, t: nat)
    requires |block| == 64 && t < n <= 64
    ensures Schedule(block, n)[t] == NextWord(block, Schedule(block, n)[..t])
  {
    ScheduleGrows(block, n, t);
    ScheduleGrows(block, n, t + 1);
    assert Schedule(block, n)[t] == Schedule(block, n)[..t + 1][t];
  }

  lemma {:induction false} FourBytes(b: Bytes)
    requires |b| == 4
    ensures FromBigEndian(b) ==
            0x100_0000 * (b[0] as int) + 0x1_0000 * (b[1] as int) + 0x100 * (b[2] as int) + b[3] as int
  {
    assert b[..3][..2] == b[..2] && b[..2][..1] == b[..1] && b[..1][..0] == [];
    assert FromBigEndian(b[..1]) == b[0];
    assert FromBigEndian(b[..2]) == 256 * FromBigEndian(b[..1]) + b[1];
    assert FromBigEndian(b[..3]) == 256 * FromBigEndian(b[..2]) + b[2];
  }

  /** Word `t` of a block, in its four bytes. */
  predicate BlockWord(block: Bytes, t: nat, w: nat)
    requires |block| == 64 && t < 16
  {
    w == 0x100_0000 * (block[4 * t] as int) + 0x1_0000 * (block[4 * t + 1] as int)
         + 0x100 * (block[4 * t + 2] as int) + block[4 * t + 3] as int
  }

  function SumOfFour(a: nat, b: nat, c: nat, d: nat): nat {
    (a + b + c + d) % 0x1_0000_0000
  }

  /** `x` is the sum of the four words that make word `t`. */
  predicate SumWord(w: Words, t: nat, x: nat)
    requires 16 <= t <= |w|
  {
    x == SumOfFour(SmallSigma1(w[t - 2]), w[t - 7], SmallSigma0(w[t - 15]), w[t - 16])
  }

  /** Sums can be reduced at any time. */
  lemma {:induction false} AddReduced(x: nat, y: nat)
    ensures Add(x % TWO_32, y) == (x + y) % 0x1_0000_0000
  {
  }

  lemma {:induction false} AddFour(a: nat, b: nat, c: nat, d: nat)
    ensures Add(Add(Add(a, b), c), d) == SumOfFour(d, c, b, a)
  {
    AddReduced(a + b, c);
    AddReduced(a + b + c, d);
  }

  lemma {:induction false} NextIsSum(block: Bytes, u: Words)
    requires |block| == 64 && 16 <= |u| < 64
    ensures SumWord(u, |u|, NextWord(block, u))
  {
    var t := |u|;
    AddFour(u[t - 16], SmallSigma0(u[t - 15]), u[t - 7], SmallSigma1(u[t - 2]));
  }

  lemma {:induction false} SumOfPrefix(w: Words, t: nat, x: nat)
    requires 16 <= t < |w| && SumWord(w[..t], t, x)
    ensures SumWord(w, t, x)
  {
  }

  /** The first sixteen words are those of the block, and every other one is the sum of four before it. */
  lemma {:induction false} ScheduleEquations(block: Bytes, n: nat, t: nat)
    requires |block| == 64 && t < n <= 64
    ensures var w := Schedule(block, n);
            && (t < 16 ==> BlockWord(block, t, w[t]))
            && (t >= 16 ==> SumWord(w, t, w[t]))
  {
    ScheduleAt(block, n, t);
    if t < 16 {
      FourBytes(block[4 * t..4 * t + 4]);
    } else {
      NextIsSum(block, Schedule(block, n)[..t]);
      SumOfPrefix(Schedule(block, n), t, Schedule(block, n)[t]);
    }
  }

  /** The two sums of a round, over any values of the functions in them. */
  lemma {:induction false} RoundSums(h: nat, s1: nat, ch: nat, k: nat, w: nat, s0: nat, maj: nat, d: nat)
    ensures var t1, t2 := Add(Add(Add(Add(h, s1), ch), k), w), Add(s0, maj);
            && Add(t1, t2) == (h + s1 + ch + k + w + s0 + maj) % 0x1_0000_0000
            && Add(d, t1) == (d + h + s1 + ch + k + w) % 0x1_0000_0000
  {
    AddFour(h, s1, ch, k);
    var t1 := h + s1 + ch + k + w;
    AddReduced(h + s1 + ch + k, w);
    AddReduced(t1, Add(s0, maj));
    AddReduced(s0 + maj, t1);
    AddReduced(t1, d);
  }

  /** The two sums and the six moves of a round. */
  predicate Follows(v: Working, k: nat, w: nat, next: Working) {
    var t1 := v.h + BigSigma1(v.e) + Choice(v.e, v.f, v.g) + k + w;
    && next.a == (t1 + BigSigma0(v.a) + Majority(v.a, v.b, v.c)) % 0x1_0000_0000
    && next.e == (v.d + t1) % 0x1_0000_0000
    && next.b == v.a && next.c == v.b && next.d == v.c && next.f == v.e && next.g == v.f && next.h == v.g
  }

  lemma {:induction false} RoundFollows(v: Working, k: nat, w: nat)
    ensures Follows(v, k, w, Round(v, k, w))
  {
    RoundSums(v.h, BigSigma1(v.e), Choice(v.e, v.f, v.g), k, w, BigSigma0(v.a), Majority(v.a, v.b, v.c), v.d);
  }

  /** Each of the rounds follows from the one before, with its constant and its word. */
  lemma {:induction false} RoundEquations(start: Working, w: Words, t: nat)
    requires |w| == 64 && t < 64
    ensures Follows(Rounds(start, w, t), RoundConstant(t), w[t], Rounds(start, w, t + 1))
    ensures Rounds(start, w, 0) == start
  {
    RoundFollows(Rounds(start, w, t), RoundConstant(t), w[t]);
  }

  /** The compression adds the working variables after sixty-four rounds to those it started with. */
  lemma {:induction false} CompressEquations(state: Words, block: Bytes, v: Working)
    requires |state| == 8 && |block| == 64
    requires v == Rounds(Working(state[0], state[1], state[2], state[3], state[4], state[5], state[6], state[7]),
                         Schedule(block, 64), 64)
    ensures Compress(state, block) ==
            [(state[0] + v.a) % 0x1_0000_0000, (state[1] + v.b) % 0x1_0000_0000,
             (state[2] + v.c) % 0x1_0000_0000, (state[3] + v.d) % 0x1_0000_0000,
             (state[4] + v.e) % 0x1_0000_0000, (state[5] + v.f) % 0x1_0000_0000,
             (state[6] + v.g) % 0x1_0000_0000, (state[7] + v.h) % 0x1_0000_0000]
  {
    AddedEquations(state, v);
  }

  lemma {:induction false} AddedEquations(state: Words, v: Working)
    requires |state| == 8
    ensures Added(state, v) ==
            [(state[0] + v.a) % 0x1_0000_0000, (state[1] + v.b) % 0x1_0000_0000,
             (state[2] + v.c) % 0x1_0000_0000, (state[3] + v.d) % 0x1_0000_0000,
             (state[4] + v.e) % 0x1_0000_0000, (state[5] + v.f) % 0x1_0000_0000,
             (state[6] + v.g) % 0x1_0000_0000, (state[7] + v.h) % 0x1_0000_0000]
  {
  }

  predicate InWords(v: Working) {
    && v.a < TWO_32 && v.b < TWO_32 && v.c < TWO_32 && v.d < TWO_32
    && v.e < TWO_32 && v.f < TWO_32 && v.g < TWO_32 && v.h < TWO_32
  }

  /** Everything the functions are applied to is a word. */
  lemma {:induction false} RoundsStayInWords(start: Working, w: Words, t: nat)
    requires |w| == 64 && t <= 64 && InWords(start)
    ensures InWords(Rounds(start, w, t))
  {
    if t > 0 {
      RoundsStayInWords(start, w, t - 1);
      RoundEquations(start, w, t - 1);
    }
  }

  lemma {:induction false} ScheduleStaysInWords(block: Bytes, n: nat, t: nat)
    requires |block| == 64 && t < n <= 64
    ensures Schedule(block, n)[t] < TWO_32
  {
    ScheduleEquations(block, n, t);
  }

  // Sections 5.1.1, 5.2.1 and 6.2: the padding, the blocks and the digest

  /** A one bit, the fewest zeros that leave room for the length in the last block, and the length. */
  lemma {:induction false} PaddingIs(length: nat, bits: nat)
    ensures var p := Padding(length, bits);
            && 9 <= |p| <= 72 && (length + |p|) % 64 == 0
            && p[0] == 0x80 && (forall k | 1 <= k < |p| - 8 :: p[k] == 0)
            && FromBigEndian(p[|p| - 8..]) == bits % 0x1_0000_0000_0000_0000
  {
    var p := Padding(length, bits);
    assert p[|p| - 8..] == BigEndian(bits, 8);
    EightBytes();
    ReadsBack(bits % TWO_64, bits / TWO_64, 8);
  }

  lemma {:induction false} ReadsBack(low: nat, high: nat, n: nat)
    requires low < Pow256(n)
    ensures FromBigEndian(BigEndian(low + high * Pow256(n), n)) == low
  {
    HighDigitsAreLost(low, high, n);
    BigEndianRoundTrip(low, n);
  }

  /** The bytes of the words, most significant first. */
  lemma {:induction false} WordBytes(words: Words, i: nat)
    requires i < |words|
    ensures FromBigEndian(WordsToBytes(words)[4 * i..4 * i + 4]) == words[i] % 0x1_0000_0000
  {
    var front, last := words[..|words| - 1], words[|words| - 1];
    if i < |front| {
      WordBytes(front, i);
      assert WordsToBytes(words)[4 * i..4 * i + 4] == WordsToBytes(front)[4 * i..4 * i + 4];
    } else {
      assert WordsToBytes(words)[4 * i..4 * i + 4] == BigEndian(last, 4);
      assert Pow256(4) == 0x1_0000_0000;
      ReadsBack(last % 0x1_0000_0000, last / 0x1_0000_0000, 4);
    }
  }

  /** The states of a hash: the initial words, then one compression for each of the `n` blocks. */
  ghost predicate States(f: Compressor, m: Bytes, n: nat, states: seq<Words>)
    requires 64 * n <= |m|
  {
    && |states| == n + 1 && states[0] == INITIAL
    && forall i | 0 <= i < n :: states[i + 1] == f(states[i], m[64 * i..64 * i + 64])
  }

  lemma {:induction false} HashStates(f: Compressor, m: Bytes, n: nat) returns (states: seq<Words>)
    requires 64 * n <= |m|
    ensures States(f, m, n, states) && states[n] == HashBlocks(f, m, n)
  {
    if n == 0 {
      states := [INITIAL];
    } else {
      var before := HashStates(f, m, n - 1);
      states := before + [f(before[n - 1], m[64 * (n - 1)..64 * n])];
    }
  }

  /** The digest is the last state of the padded message. */
  lemma {:induction false} DigestIsLastState(f: Compressor, m: Bytes) returns (n: nat, states: seq<Words>)
    ensures var padded := m + Padding(|m|, 8 * |m|);
            64 * n == |padded| && States(f, padded, n, states) && Digest(f, m) == WordsToBytes(states[n])
  {
    n := |m + Padding(|m|, 8 * |m|)| / 64;
    states := HashStates(f, m + Padding(|m|, 8 * |m|), n);
  }

  // Section 4.2.2 and 5.3.3: the constants

  /** The first sixty-four primes, in eight rows. */
  const PRIMES: seq<seq<nat>> := [
    [2, 3, 5, 7, 11, 13, 17, 19],
    [23, 29, 31, 37, 41, 43, 47, 53],
    [59, 61, 67, 71, 73, 79, 83, 89],
    [97, 101, 103, 107, 109, 113, 127, 131],
    [137, 139, 149, 151, 157, 163, 167, 173],
    [179, 181, 191, 193, 197, 199, 211, 223],
    [227, 229, 233, 239, 241, 251, 257, 263],
    [269, 271, 277, 281, 283, 293, 307, 311]]

  function Prime(t: nat): nat
    requires t < 64
  {
    PRIMES[t / 8][t % 8]
  }

  /** `k` is the first 32 bits of the fractional part of the cube root of `p`, and `c` has its integer part too. */
  predicate CubeRoot(p: nat, k: nat, c: nat) {
    && k == c % 0x1_0000_0000
    && c * c * c <= p * 0x1_0000_0000_0000_0000_0000_0000 < (c + 1) * (c + 1) * (c + 1)
  }

  lemma {:induction false} CubeRootsRow0(t: nat) returns (c: nat)
    requires 0 <= t < 8
    ensures CubeRoot(Prime(t), RoundConstant(t), c)
  {
    match t
    case 0 => c := 0x1_428a_2f98;
    case 1 => c := 0x1_7137_4491;
    case 2 => c := 0x1_b5c0_fbcf;
    case 3 => c := 0x1_e9b5_dba5;
    case 4 => c := 0x2_3956_c25b;
    case 5 => c := 0x2_59f1_11f1;
    case 6 => c := 0x2_923f_82a4;
    case _ => c := 0x2_ab1c_5ed5;
  }

  lemma {:induction false} CubeRootsRow1(t: nat) returns (c: nat)
    requires 8 <= t < 16
    ensures CubeRoot(Prime(t), RoundConstant(t), c)
  {
    match t
    case 8 => c := 0x2_d807_aa98;
    case 9 => c := 0x3_1283_5b01;
    case 10 => c := 0x3_2431_85be;
    case 11 => c := 0x3_550c_7dc3;
    case 12 => c := 0x3_72be_5d74;
    case 13 => c := 0x3_80de_b1fe;
    case 14 => c := 0x3_9bdc_06a7;
    case _ => c := 0x3_c19b_f174;
  }

  lemma {:induction false} CubeRootsRow2(t: nat) returns (c: nat)
    requires 16 <= t < 24
    ensures CubeRoot(Prime(t), RoundConstant(t), c)
  {
    match t
    case 16 => c := 0x3_e49b_69c1;
    case 17 => c := 0x3_efbe_4786;
    case 18 => c := 0x4_0fc1_9dc6;
    case 19 => c := 0x4_240c_a1cc;
    case 20 => c := 0x4_2de9_2c6f;
    case 21 => c := 0x4_4a74_84aa;
    case 22 => c := 0x4_5cb0_a9dc;
    case _ => c := 0x4_76f9_88da;
  }

  lemma {:induction false} CubeRootsRow3(t: nat) returns (c: nat)
    requires 24 <= t < 32
    ensures CubeRoot(Prime(t), RoundConstant(t), c)
  {
    match t
    case 24 => c := 0x4_983e_5152;
    case 25 => c := 0x4_a831_c66d;
    case 26 => c := 0x4_b003_27c8;
    case 27 => c := 0x4_bf59_7fc7;
    case 28 => c := 0x4_c6e0_0bf3;
    case 29 => c := 0x4_d5a7_9147;
    case 30 => c := 0x5_06ca_6351;
    case _ => c := 0x5_1429_2967;
  }

  lemma {:induction false} CubeRootsRow4(t: nat) returns (c: nat)
    requires 32 <= t < 40
    ensures CubeRoot(Prime(t), RoundConstant(t), c)
  {
    match t
    case 32 => c := 0x5_27b7_0a85;
    case 33 => c := 0x5_2e1b_2138;
    case 34 => c := 0x5_4d2c_6dfc;
    case 35 => c := 0x5_5338_0d13;
    case 36 => c := 0x5_650a_7354;
    case 37 => c := 0x5_766a_0abb;
    case 38 => c := 0x5_81c2_c92e;
    case _ => c := 0x5_9272_2c85;
  }

  lemma {:induction false} CubeRootsRow5(t: nat) returns (c: nat)
    requires 40 <= t < 48
    ensures CubeRoot(Prime(t), RoundConstant(t), c)
  {
    match t
    case 40 => c := 0x5_a2bf_e8a1;
    case 41 => c := 0x5_a81a_664b;
    case 42 => c := 0x5_c24b_8b70;
    case 43 => c := 0x5_c76c_51a3;
    case 44 => c := 0x5_d192_e819;
    case 45 => c := 0x5_d699_0624;
    case 46 => c := 0x5_f40e_3585;
    case _ => c := 0x6_106a_a070;
  }

  lemma {:induction false} CubeRootsRow6(t: nat) returns (c: nat)
    requires 48 <= t < 56
    ensures CubeRoot(Prime(t), RoundConstant(t), c)
  {
    match t
    case 48 => c := 0x6_19a4_c116;
    case 49 => c := 0x6_1e37_6c08;
    case 50 => c := 0x6_2748_774c;
    case 51 => c := 0x6_34b0_bcb5;
    case 52 => c := 0x6_391c_0cb3;
    case 53 => c := 0x6_4ed8_aa4a;
    case 54 => c := 0x6_5b9c_ca4f;
    case _ => c := 0x6_682e_6ff3;
  }

  lemma {:induction false} CubeRootsRow7(t: nat) returns (c: nat)
    requires 56 <= t < 64
    ensures CubeRoot(Prime(t), RoundConstant(t), c)
  {
    match t
    case 56 => c := 0x6_748f_82ee;
    case 57 => c := 0x6_78a5_636f;
    case 58 => c := 0x6_84c8_7814;
    case 59 => c := 0x6_8cc7_0208;
    case 60 => c := 0x6_90be_fffa;
    case 61 => c := 0x6_a450_6ceb;
    case 62 => c := 0x6_bef9_a3f7;
    case _ => c := 0x6_c671_78f2;
  }

  /** The sixty-four constants of section 4.2.2. */
  lemma {:induction false} RoundConstantsAreCubeRoots(t: nat) returns (c: nat)
    requires t < 64
    ensures c % 0x1_0000_0000 == RoundConstant(t) && c * c * c <= Prime(t) * 0x1_0000_0000_0000_0000_0000_0000
    ensures Prime(t) * 0x1_0000_0000_0000_0000_0000_0000 < (c + 1) * (c + 1) * (c + 1)
  {
    match t / 8
    case 0 => c := CubeRootsRow0(t);
    case 1 => c := CubeRootsRow1(t);
    case 2 => c := CubeRootsRow2(t);
    case 3 => c := CubeRootsRow3(t);
    case 4 => c := CubeRootsRow4(t);
    case 5 => c := CubeRootsRow5(t);
    case 6 => c := CubeRootsRow6(t);
    case _ => c := CubeRootsRow7(t);
  }

  /** The eight words of section 5.3.3. */
  lemma {:induction false} InitialWordsAreSquareRoots(t: nat) returns (c: nat)
    requires t < 8
    ensures |INITIAL| == 8 && c % 0x1_0000_0000 == INITIAL[t]
    ensures c * c <= Prime(t) * 0x1_0000_0000_0000_0000 < (c + 1) * (c + 1)
  {
    match t
    case 0 => c := 0x1_6a09_e667;
    case 1 => c := 0x1_bb67_ae85;
    case 2 => c := 0x2_3c6e_f372;
    case 3 => c := 0x2_a54f_f53a;
    case 4 => c := 0x3_510e_527f;
    case 5 => c := 0x3_9b05_688c;
    case 6 => c := 0x4_1f83_d9ab;
    case _ => c := 0x4_5be0_cd19;
  }

  // The primes are the first ones

  predicate IsPrime(n: nat) {
    n >= 2 && forall d: nat | 2 <= d < n :: n % d != 0
  }

  /** Nothing up to seventeen divides `n`, but `n` itself. */
  predicate Rough(n: nat) {
    && (n == 2 || n % 2 != 0) && (n == 3 || n % 3 != 0) && (n == 5 || n % 5 != 0) && (n == 7 || n % 7 != 0)
    && (n == 11 || n % 11 != 0) && (n == 13 || n % 13 != 0) && (n == 17 || n % 17 != 0)
  }

  lemma {:induction false} Divides(n: nat, d: nat)
    requires 2 <= d < n && n % d == 0
    ensures !IsPrime(n)
  {
  }

  lemma {:induction false} RoughIsPrime(n: nat)
    requires 2 <= n < 324
    ensures IsPrime(n) <==> Rough(n)
  {
    if !Rough(n) {
      Divides(n, if n % 2 == 0 && n != 2 then 2 else if n % 3 == 0 && n != 3 then 3
                 else if n % 5 == 0 && n != 5 then 5 else if n % 7 == 0 && n != 7 then 7
                 else if n % 11 == 0 && n != 11 then 11 else if n % 13 == 0 && n != 13 then 13 else 17);
    } else {
      forall d: nat | 2 <= d < n ensures n % d != 0 {
        if n % d == 0 { SmallFactor(n, d); }
      }
    }
  }

  /** Of two factors of a number below 18 * 18 one is below 18. */
  lemma {:induction false} SmallFactor(n: nat, d: nat)
    requires n < 324 && 2 <= d < n && n % d == 0
    ensures !Rough(n)
  {
    if d < 18 {
      FactorShows(n, d);
    } else {
      var e := n / d;
      assert n == d * e;
      CoFactor(d, e);
      FactorShows(n, e);
    }
  }

  lemma {:induction false} CoFactor(d: nat, e: nat)
    requires 18 <= d < d * e < 324
    ensures 2 <= e < 18 && (d * e) % e == 0 && e < d * e
  {
    if e >= 18 { Monotone(18, d, e); }
    if e <= 1 { Monotone(e, 1, d); }
    ProductMod(d, e);
    Monotone(1, d, e);
  }

  lemma {:induction false} Monotone(a: nat, b: nat, e: nat)
    requires a <= b
    ensures a * e <= b * e
  {
  }

  lemma {:induction false} ProductMod(d: nat, e: nat)
    requires e > 0
    ensures (d * e) % e == 0
  {
    var q, r := d * e / e, d * e % e;
    assert d * e == q * e + r;
    if q < d {
      Monotone(q + 1, d, e);
    } else {
      Monotone(d, q, e);
    }
  }

  lemma {:induction false} FactorShows(n: nat, k: nat)
    requires 2 <= k < 18 && k < n && n % k == 0
    ensures !Rough(n)
  {
    match k
    case 2 | 4 | 8 | 16 => assert n % 2 == 0;
    case 6 | 10 | 12 | 14 => assert n % 2 == 0;
    case 3 | 9 | 15 => assert n % 3 == 0;
    case _ => assert k == 5 || k == 7 || k == 11 || k == 13 || k == 17;
  }

  lemma {:induction false} PrimesAreRough(t: nat)
    requires t < 64
    ensures Rough(Prime(t)) && 2 <= Prime(t) < 324
  {
  }

  lemma {:induction false} GapsRow0(t: nat, n: nat)
    requires 0 <= t < 8 && Prime(t) < n < Prime(t + 1)
    ensures !Rough(n)
  {
    match t
    case 0 => assert false;
    case 1 => assert n % 2 == 0;
    case 2 => assert n % 2 == 0;
    case 3 => assert n % 2 == 0 || n == 9;
    case 4 => assert n % 2 == 0;
    case 5 => assert n % 2 == 0 || n == 15;
    case 6 => assert n % 2 == 0;
    case _ => assert n % 2 == 0 || n == 21;
  }

  lemma {:induction false} GapsRow1(t: nat, n: nat)
    requires 8 <= t < 16 && Prime(t) < n < Prime(t + 1)
    ensures !Rough(n)
  {
    match t
    case 8 => assert n % 2 == 0 || n == 25 || n == 27;
    case 9 => assert n % 2 == 0;
    case 10 => assert n % 2 == 0 || n == 33 || n == 35;
    case 11 => assert n % 2 == 0 || n == 39;
    case 12 => assert n % 2 == 0;
    case 13 => assert n % 2 == 0 || n == 45;
    case 14 => assert n % 2 == 0 || n == 49 || n == 51;
    case _ => assert n % 2 == 0 || n == 55 || n == 57;
  }

  lemma {:induction false} GapsRow2(t: nat, n: nat)
    requires 16 <= t < 24 && Prime(t) < n < Prime(t + 1)
    ensures !Rough(n)
  {
    match t
    case 16 => assert n % 2 == 0;
    case 17 => assert n % 2 == 0 || n == 63 || n == 65;
    case 18 => assert n % 2 == 0 || n == 69;
    case 19 => assert n % 2 == 0;
    case 20 => assert n % 2 == 0 || n == 75 || n == 77;
    case 21 => assert n % 2 == 0 || n == 81;
    case 22 => assert n % 2 == 0 || n == 85 || n == 87;
    case _ => assert n % 2 == 0 || n == 91 || n == 93 || n == 95;
  }

  lemma {:induction false} GapsRow3(t: nat, n: nat)
    requires 24 <= t < 32 && Prime(t) < n < Prime(t + 1)
    ensures !Rough(n)
  {
    match t
    case 24 => assert n % 2 == 0 || n == 99;
    case 25 => assert n % 2 == 0;
    case 26 => assert n % 2 == 0 || n == 105;
    case 27 => assert n % 2 == 0;
    case 28 => assert n % 2 == 0 || n == 111;
    case 29 => assert n % 2 == 0 || n == 115 || n == 117 || n == 119 || n == 121 || n == 123 || n == 125;
    case 30 => assert n % 2 == 0 || n == 129;
    case _ => assert n % 2 == 0 || n == 133 || n == 135;
  }

  lemma {:induction false} GapsRow4(t: nat, n: nat)
    requires 32 <= t < 40 && Prime(t) < n < Prime(t + 1)
    ensures !Rough(n)
  {
    match t
    case 32 => assert n % 2 == 0;
    case 33 => assert n % 2 == 0 || n == 141 || n == 143 || n == 145 || n == 147;
    case 34 => assert n % 2 == 0;
    case 35 => assert n % 2 == 0 || n == 153 || n == 155;
    case 36 => assert n % 2 == 0 || n == 159 || n == 161;
    case 37 => assert n % 2 == 0 || n == 165;
    case 38 => assert n % 2 == 0 || n == 169 || n == 171;
    case _ => assert n % 2 == 0 || n == 175 || n == 177;
  }

  lemma {:induction false} GapsRow5(t: nat, n: nat)
    requires 40 <= t < 48 && Prime(t) < n < Prime(t + 1)
    ensures !Rough(n)
  {
    match t
    case 40 => assert n % 2 == 0;
    case 41 => assert n % 2 == 0 || n == 183 || n == 185 || n == 187 || n == 189;
    case 42 => assert n % 2 == 0;
    case 43 => assert n % 2 == 0 || n == 195;
    case 44 => assert n % 2 == 0;
    case 45 => assert n % 2 == 0 || n == 201 || n == 203 || n == 205 || n == 207 || n == 209;
    case 46 => assert n % 2 == 0 || n == 213 || n == 215 || n == 217 || n == 219 || n == 221;
    case _ => assert n % 2 == 0 || n == 225;
  }

  lemma {:induction false} GapsRow6(t: nat, n: nat)
    requires 48 <= t < 56 && Prime(t) < n < Prime(t + 1)
    ensures !Rough(n)
  {
    match t
    case 48 => assert n % 2 == 0;
    case 49 => assert n % 2 == 0 || n == 231;
    case 50 => assert n % 2 == 0 || n == 235 || n == 237;
    case 51 => assert n % 2 == 0;
    case 52 => assert n % 2 == 0 || n == 243 || n == 245 || n == 247 || n == 249;
    case 53 => assert n % 2 == 0 || n == 253 || n == 255;
    case 54 => assert n % 2 == 0 || n == 259 || n == 261;
    case _ => assert n % 2 == 0 || n == 265 || n == 267;
  }

  lemma {:induction false} GapsRow7(t: nat, n: nat)
    requires 56 <= t < 63 && Prime(t) < n < Prime(t + 1)
    ensures !Rough(n)
  {
    match t
    case 56 => assert n % 2 == 0;
    case 57 => assert n % 2 == 0 || n == 273 || n == 275;
    case 58 => assert n % 2 == 0 || n == 279;
    case 59 => assert n % 2 == 0;
    case 60 => assert n % 2 == 0 || n == 285 || n == 287 || n == 289 || n == 291;
    case 61 => assert n % 2 == 0 || n == 295 || n == 297 || n == 299 || n == 301 || n == 303 || n == 305;
    case _ => assert n % 2 == 0 || n == 309;
  }

  lemma {:induction false} Gaps(t: nat, n: nat)
    requires t < 63 && Prime(t) < n < Prime(t + 1)
    ensures !Rough(n)
  {
    match t / 8
    case 0 => GapsRow0(t, n);
    case 1 => GapsRow1(t, n);
    case 2 => GapsRow2(t, n);
    case 3 => GapsRow3(t, n);
    case 4 => GapsRow4(t, n);
    case 5 => GapsRow5(t, n);
    case 6 => GapsRow6(t, n);
    case _ => GapsRow7(t, n);
  }

  lemma {:induction false} PrimesIncrease(t: nat)
    requires t < 63
    ensures Prime(t) < Prime(t + 1)
  {
  }

  /** They are all prime, the first is the least prime, and none is missing between two of them. */
  lemma {:induction false} PrimesAreTheFirst(t: nat)
    requires t < 64
    ensures IsPrime(Prime(t)) && Prime(0) == 2
    ensures t < 63 ==> Prime(t) < Prime(t + 1) && forall n | Prime(t) < n < Prime(t + 1) :: !IsPrime(n)
  {
    PrimesAreRough(t);
    RoughIsPrime(Prime(t));
    if t < 63 {
      PrimesIncrease(t);
      PrimesAreRough(t + 1);
      forall n | Prime(t) < n < Prime(t + 1) ensures !IsPrime(n) {
        Gaps(t, n);
        RoughIsPrime(n);
      }
    }
  }
}
