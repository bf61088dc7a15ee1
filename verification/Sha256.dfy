/** SHA-256 in two forms: the streaming hasher with its block buffer, and the one-shot function over the
    padded message.  Both share the compression function, which is a parameter here: every result holds
    for every compression function, that of FIPS 180-4 among them. */
module Sha256 {
  import opened Base
  import opened Encoding

  type Words = seq<nat>

  type Compressor = (Words, Bytes) -> Words

  const INITIAL: Words :=
    [0x6a09e667, 0xbb67ae85, 0x3c6ef372, 0xa54ff53a, 0x510e527f, 0x9b05688c, 0x1f83d9ab, 0x5be0cd19]

  // The message (FIPS 180-4, sections 5.1.1, 5.2.1 and 5.3.3)

  /** The hash state after the first `n` blocks of a message. */
  function HashBlocks(f: Compressor, m: Bytes, n: nat): Words
    requires 64 * n <= |m|
    decreases n
  {
    if n == 0 then INITIAL else f(HashBlocks(f, m, n - 1), m[64 * (n - 1)..64 * n])
  }

  lemma {:induction false} HashPrefix(f: Compressor, m: Bytes, more: Bytes, n: nat)
    requires 64 * n <= |m|
    ensures HashBlocks(f, m + more, n) == HashBlocks(f, m, n)
    decreases n
  {
    if n > 0 {
      HashPrefix(f, m, more, n - 1);
      assert (m + more)[64 * (n - 1)..64 * n] == m[64 * (n - 1)..64 * n];
    }
  }

  function Zeros(n: nat): (z: Bytes)
    ensures |z| == n
  {
    seq(n, i => 0)
  }

  /** The bytes of the one bit, the zeros up to the last eight bytes of a block, and the length. */
  function Padding(length: nat, bits: nat): (p: Bytes)
    ensures (length + |p|) % 64 == 0
  {
    [0x80] + Zeros((55 - length) % 64) + Be64(bits)
  }

  function WordsToBytes(words: Words): (b: Bytes)
    ensures |b| == 4 * |words|
  {
    if words == [] then [] else WordsToBytes(words[..|words| - 1]) + BigEndian(words[|words| - 1], 4)
  }

  /** The digest of a message whose length is said to be `bits`. */
  function Finish(f: Compressor, m: Bytes, bits: nat): Bytes {
    var padded := m + Padding(|m|, bits);
    WordsToBytes(HashBlocks(f, padded, |padded| / 64))
  }

  /** SHA-256 of a byte string. */
  function Digest(f: Compressor, m: Bytes): Bytes {
    Finish(f, m, 8 * |m|)
  }

  /** A compression function that gives eight words for eight words. */
  ghost predicate KeepsWidth(f: Compressor) {
    forall state: Words, block: Bytes | |state| == 8 && |block| == 64 :: |f(state, block)| == 8
  }

  lemma {:induction false} EightWords(f: Compressor, m: Bytes, n: nat)
    requires KeepsWidth(f) && 64 * n <= |m|
    ensures |HashBlocks(f, m, n)| == 8
    decreases n
  {
    if n > 0 { EightWords(f, m, n - 1); }
  }

  lemma {:induction false} FinishHas32Bytes(f: Compressor, m: Bytes, bits: nat)
    requires KeepsWidth(f)
    ensures |Finish(f, m, bits)| == 32
  {
    var padded := m + Padding(|m|, bits);
    EightWords(f, padded, |padded| / 64);
  }

  // The one-shot function

  lemma {:induction false} PaddingEnds(n: nat, k: nat)
    requires k <= (55 - n) % 64
    ensures (n + 1 + k) % 64 == 56 <==> k == (55 - n) % 64
  {
  }

  method PadMessage(input: Bytes) returns (padded: Bytes)
    ensures padded == input + Padding(|input|, 8 * |input|)
  {
    var bits := 8 * |input|;
    padded := input + [0x80];
    ghost var k := 0;
    assert Zeros(0) == [];
    PaddingEnds(|input|, 0);
    while |padded| % 64 != 56
      invariant k <= (55 - |input|) % 64 && padded == input + [0x80] + Zeros(k)
      invariant |padded| % 64 == 56 <==> k == (55 - |input|) % 64
      decreases 64 - k
    {
      PaddingEnds(|input|, k + 1);
      assert Zeros(k + 1) == Zeros(k) + [0];
      padded := padded + [0];
      k := k + 1;
    }
    padded := padded + Be64(bits);
  }

  method StateBytes(state: Words) returns (output: Bytes)
    ensures output == WordsToBytes(state)
  {
    output := [];
    for i := 0 to |state|
      invariant output == WordsToBytes(state[..i])
    {
      assert state[..i + 1][..i] == state[..i];
      output := output + BigEndian(state[i], 4);
    }
    assert state[..|state|] == state;
  }

  method OneShot(f: Compressor, input: Bytes) returns (digest: Bytes)
    ensures digest == Digest(f, input)
  {
    var state := INITIAL;
    var padded := PadMessage(input);
    var n := 0;
    while 64 * n < |padded|
      invariant 64 * n <= |padded| && state == HashBlocks(f, padded, n)
    {
      state := f(state, padded[64 * n..64 * n + 64]);
      n := n + 1;
    }
    digest := StateBytes(state);
  }

  // The streaming hasher

  /** Whether `update` keeps what it holds and what it is given. */
  predicate Keeps(length: nat, input: Bytes) {
    length % 64 == 0 || length % 64 + |input| >= 64
  }

  /** What `update` makes of the message hashed so far: the input is appended, unless it leaves a begun
      block unfinished; then the begun block and the input are both lost. */
  function Absorb(m: Bytes, input: Bytes): Bytes {
    if Keeps(|m|, input) then m + input else m[..64 * (|m| / 64)]
  }

  /** The three ways `update` can go, block by block. */
  lemma {:induction false} AbsorbByBlocks(m: Bytes, n: nat, input: Bytes)
    requires 64 * n <= |m| < 64 * (n + 1)
    ensures var tail := m[64 * n..];
            var needed := 64 - |tail|;
            && m == m[..64 * n] + tail
            && (tail == [] ==> Absorb(m, input) == m + input)
            && (tail != [] && needed <= |input| ==>
                  && |m[..64 * n] + (tail + input[..needed])| == 64 * (n + 1)
                  && Absorb(m, input) == m + input == (m[..64 * n] + (tail + input[..needed])) + input[needed..])
            && (tail != [] && needed > |input| ==> Absorb(m, input) == m[..64 * n] + [])
  {
    var tail := m[64 * n..];
    var needed := 64 - |tail|;
    assert |m| / 64 == n && |m| % 64 == |tail|;
    assert m == m[..64 * n] + tail;
    if tail != [] && needed <= |input| {
      assert (m[..64 * n] + (tail + input[..needed])) + input[needed..] == m + input;
    }
  }

  /** A message that leaves room for the length in its last block. */
  lemma {:induction false} PaddedShort(m: Bytes, n: nat, bits: nat)
    requires 64 * n <= |m| < 64 * n + 56
    ensures var tail, padded := m[64 * n..], m + Padding(|m|, bits);
            |padded| == 64 * (n + 1) && padded[64 * n..] == tail + [0x80] + Zeros(56 - (|tail| + 1)) + Be64(bits)
  {
    assert (55 - |m|) % 64 == 55 - (|m| - 64 * n);
  }

  /** A message that needs one block more. */
  lemma {:induction false} PaddedLong(m: Bytes, n: nat, bits: nat)
    requires 64 * n + 56 <= |m| < 64 * (n + 1)
    ensures var tail, padded := m[64 * n..], m + Padding(|m|, bits);
            && |padded| == 64 * (n + 2)
            && padded[64 * n..64 * (n + 1)] == tail + [0x80] + Zeros(64 - (|tail| + 1))
            && padded[64 * (n + 1)..] == Zeros(56) + Be64(bits)
  {
    var b := |m| - 64 * n;
    assert (55 - |m|) % 64 == 119 - b;
    assert Zeros(119 - b) == Zeros(63 - b) + Zeros(56);
  }

  lemma {:induction false} HashOneMore(f: Compressor, hashed: Bytes, block: Bytes, n: nat)
    requires |hashed| == 64 * n && |block| == 64
    ensures HashBlocks(f, hashed + block, n + 1) == f(HashBlocks(f, hashed, n), block)
  {
    HashPrefix(f, hashed, block, n);
    assert (hashed + block)[64 * n..64 * (n + 1)] == block;
  }

  class Hasher {
    const compress: Compressor
    const buffer: array<byte>
    var state: Words
    var bufferLen: nat
    /** Wraps at 64 bits in the source; only its low 64 bits are ever used, and `Be64` takes those. */
    var bitLen: nat
    /** What has been hashed or is held in the buffer, its whole blocks, and how much has been given. */
    ghost var message: Bytes
    ghost var blocks: nat
    ghost var given: nat

    ghost predicate Valid()
      reads this, buffer
    {
      && buffer.Length == 64 && bitLen == 8 * given
      && bufferLen < 64 && |message| == 64 * blocks + bufferLen
      && state == HashBlocks(compress, message, blocks)
      && buffer[..bufferLen] == message[64 * blocks..]
    }

    constructor (f: Compressor)
      ensures Valid() && fresh(buffer) && compress == f && message == [] && given == 0
    {
      compress := f;
      buffer := new byte[64](i => 0);
      state, bufferLen, bitLen, message, blocks, given := INITIAL, 0, 0, [], 0, 0;
    }

    /** `copy_from_slice` into the buffer. */
    method Store(at: nat, bytes: Bytes)
      requires at + |bytes| <= buffer.Length
      modifies buffer
      ensures buffer[..] == old(buffer[..at]) + bytes + old(buffer[at + |bytes|..])
    {
      for i := 0 to |bytes|
        invariant buffer[..] == old(buffer[..at]) + bytes[..i] + old(buffer[at + i..])
      {
        buffer[at + i] := bytes[i];
      }
    }

    /** The full blocks of the input, straight into the state. */
    method CompressAll(input: Bytes, ghost hashed: Bytes, ghost n: nat) returns (rest: Bytes, ghost m: nat)
      requires |hashed| == 64 * n && state == HashBlocks(compress, hashed, n)
      modifies this`state
      ensures |rest| < 64 && |hashed + input| == 64 * m + |rest|
      ensures rest == (hashed + input)[64 * m..] && state == HashBlocks(compress, hashed + input, m)
    {
      rest, m := input, n;
      ghost var all := hashed + input;
      HashPrefix(compress, hashed, input, n);
      while |rest| >= 64
        invariant |all| == 64 * m + |rest| && rest == all[64 * m..]
        invariant state == HashBlocks(compress, all, m)
      {
        assert rest[..64] == all[64 * m..64 * (m + 1)];
        state := compress(state, rest[..64]);
        rest := rest[64..];
        m := m + 1;
      }
    }

    /** The part of `update` after a begun block: whole blocks to the state, the rest to the buffer. */
    method TakeIn(input: Bytes, ghost hashed: Bytes, ghost n: nat)
      requires buffer.Length == 64 && bitLen == 8 * given
      requires |hashed| == 64 * n && state == HashBlocks(compress, hashed, n)
      modifies this`state, this`bufferLen, this`message, this`blocks, buffer
      ensures Valid() && message == hashed + input
    {
      var rest;
      rest, blocks := CompressAll(input, hashed, n);
      message := hashed + input;
      Store(0, rest);
      bufferLen := |rest|;
      assert buffer[..bufferLen] == rest;
    }

    /** Fills up a begun block; a block that fills is compressed. */
    method TopUp(input: Bytes) returns (rest: Bytes, ghost hashed: Bytes, ghost n: nat)
      requires Valid() && bufferLen > 0
      modifies this`state, this`bufferLen, buffer
      ensures Absorb(message, input) == hashed + rest
      ensures |hashed| == 64 * n && state == HashBlocks(compress, hashed, n)
    {
      ghost var tail := message[64 * blocks..];
      n := blocks;
      hashed := message[..64 * n];
      AbsorbByBlocks(message, n, input);
      HashPrefix(compress, hashed, tail, n);
      var needed := 64 - bufferLen;
      var take := if needed < |input| then needed else |input|;
      Store(bufferLen, input[..take]);
      bufferLen := bufferLen + take;
      rest := input[take..];
      if bufferLen == 64 {
        CompressBuffer(hashed, tail + input[..take], n);
        hashed, n := hashed + (tail + input[..take]), n + 1;
        assert Absorb(message, input) == hashed + rest;
      } else {
        assert Absorb(message, input) == hashed + rest;
      }
    }

    /** The full buffer into the state. */
    method CompressBuffer(ghost hashed: Bytes, ghost block: Bytes, ghost n: nat)
      requires |block| == 64 && buffer[..] == block && |hashed| == 64 * n && state == HashBlocks(compress, hashed, n)
      modifies this`state, this`bufferLen
      ensures bufferLen == 0 && state == HashBlocks(compress, hashed + block, n + 1)
    {
      HashOneMore(compress, hashed, block, n);
      state := compress(state, buffer[..]);
      bufferLen := 0;
    }

    method Feed(input: Bytes)
      requires Valid()
      modifies this`state, this`bufferLen, this`message, this`blocks, buffer
      ensures Valid() && message == Absorb(old(message), input)
    {
      var rest := input;
      ghost var hashed, n := message, blocks;
      if bufferLen > 0 {
        rest, hashed, n := TopUp(input);
      } else {
        AbsorbByBlocks(message, blocks, input);
        assert message[..64 * n] == message;
      }
      TakeIn(rest, hashed, n);
    }

    /** `update`, as it is. */
    method Update(input: Bytes)
      requires Valid()
      modifies this, buffer
      ensures Valid() && message == Absorb(old(message), input)
      ensures given == old(given) + |input|
    {
      bitLen := bitLen + 8 * |input|;
      given := given + |input|;
      Feed(input);
    }

    /** `update` as it should be: a block that stays unfinished is kept. */
    method UpdateRepaired(input: Bytes)
      requires Valid()
      modifies this, buffer
      ensures Valid() && message == old(message) + input
      ensures given == old(given) + |input|
    {
      bitLen := bitLen + 8 * |input|;
      given := given + |input|;
      AbsorbByBlocks(message, blocks, input);
      if bufferLen > 0 && bufferLen + |input| < 64 {
        Keep(input);
      } else {
        Feed(input);
      }
    }

    method Keep(input: Bytes)
      requires Valid() && bufferLen + |input| < 64
      modifies this`bufferLen, this`message, buffer
      ensures Valid() && message == old(message) + input
    {
      HashPrefix(compress, message, input, blocks);
      Store(bufferLen, input);
      message := message + input;
      bufferLen := bufferLen + |input|;
    }

    /** `finalize`. */
    method Finalize() returns (digest: Bytes)
      requires Valid()
      modifies this`state, this`bufferLen, buffer
      ensures digest == Finish(compress, message, 8 * given)
    {
      HashPrefix(compress, message, Padding(|message|, bitLen), blocks);
      PushOne();
      PadOut(message + Padding(|message|, bitLen));
      digest := StateBytes(state);
    }

    /** The rest of the padding, in the begun block or in that and one more. */
    method PadOut(ghost padded: Bytes)
      requires buffer.Length == 64 && 0 < bufferLen <= 64 && |message| == 64 * blocks + bufferLen - 1
      requires buffer[..bufferLen] == message[64 * blocks..] + [0x80]
      requires padded == message + Padding(|message|, bitLen)
      requires state == HashBlocks(compress, padded, blocks)
      modifies this`state, this`bufferLen, buffer
      ensures state == HashBlocks(compress, padded, |padded| / 64)
    {
      if bufferLen > 56 {
        PaddedLong(message, blocks, bitLen);
        ZeroOut(padded, blocks);
        assert buffer[..bufferLen] == [] && [] + Zeros(56) == Zeros(56);
        FinishBlock(padded, blocks + 1);
      } else {
        PaddedShort(message, blocks, bitLen);
        FinishBlock(padded, blocks);
      }
    }

    /** The one bit after the message. */
    method PushOne()
      requires Valid()
      modifies this`bufferLen, buffer
      ensures 0 < bufferLen <= 64 && |message| == 64 * blocks + bufferLen - 1
      ensures buffer[..bufferLen] == message[64 * blocks..] + [0x80]
    {
      buffer[bufferLen] := 0x80;
      bufferLen := bufferLen + 1;
    }

    /** A block without room for the length: zeros to its end, and a new block. */
    method ZeroOut(ghost padded: Bytes, ghost n: nat)
      requires buffer.Length == 64 && bufferLen <= 64 && |padded| >= 64 * (n + 1)
      requires state == HashBlocks(compress, padded, n)
      requires padded[64 * n..64 * (n + 1)] == buffer[..bufferLen] + Zeros(64 - bufferLen)
      modifies this`state, this`bufferLen, buffer
      ensures bufferLen == 0 && state == HashBlocks(compress, padded, n + 1)
    {
      Store(bufferLen, Zeros(64 - bufferLen));
      assert buffer[..] == padded[64 * n..64 * (n + 1)];
      state := compress(state, buffer[..]);
      Store(0, Zeros(64));
      bufferLen := 0;
    }

    /** The last block: zeros up to the length, and the length. */
    method FinishBlock(ghost padded: Bytes, ghost n: nat)
      requires buffer.Length == 64 && bufferLen <= 56 && |padded| == 64 * (n + 1)
      requires state == HashBlocks(compress, padded, n)
      requires padded[64 * n..] == buffer[..bufferLen] + Zeros(56 - bufferLen) + Be64(bitLen)
      modifies this`state, buffer
      ensures state == HashBlocks(compress, padded, |padded| / 64)
    {
      Store(bufferLen, Zeros(56 - bufferLen));
      Store(56, Be64(bitLen));
      assert buffer[..] == padded[64 * n..64 * (n + 1)];
      state := compress(state, buffer[..]);
      assert |padded| / 64 == n + 1;
    }
  }
}
