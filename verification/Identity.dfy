/** The payload fingerprint: the identity stream fed to the streaming hasher, piece by piece. */
module Identity {
  import opened Base
  import opened Encoding
  import opened Sha256
  import C = Compression
  import opened TreeEncoding

  // The pieces given to the hasher

  function HeaderChunks(t: Payload, relative: Path): seq<Bytes> {
    var kind, name := KindText(KindOf(t)), Joined(relative);
    [Be64(|kind|), kind, Be64(|name|), name]
  }

  function BodyChunks(t: Payload): seq<Bytes> {
    match t
    case FileNode(parts) => [Be64(|Flat(parts)|)] + parts
    case DirNode(_) => []
    case LinkNode(target) => [Be64(|target|), target]
    case OtherNode(length) => [Be64(length)]
  }

  function Chunks(t: Payload, relative: Path): seq<Bytes>
    decreases t, 2
  {
    HeaderChunks(t, relative) + BodyChunks(t) + if t.DirNode? then Concat(ChunkLists(t, relative)) else []
  }

  function ChunkLists(t: Payload, relative: Path): (lists: seq<seq<Bytes>>)
    requires t.DirNode?
    ensures |lists| == |Children(t)|
    decreases t, 1
  {
    var cs := Children(t);
    seq(|cs|, i requires 0 <= i < |cs| => ChildChunks(t, cs[i], relative))
  }

  function ChildChunks(t: Payload, c: Named, relative: Path): seq<Bytes>
    requires t.DirNode? && c in t.listing
    decreases t, 0
  {
    Chunks(c.payload, relative + [c.name])
  }

  lemma {:induction false} FlatOfBoth(a: seq<Bytes>, b: seq<Bytes>)
    ensures Flat(a + b) == Flat(a) + Flat(b)
    decreases |b|
  {
    if b == [] {
      assert a + b == a;
    } else {
      var n := |b| - 1;
      FlatOfBoth(a, b[..n]);
      assert (a + b)[..|a + b| - 1] == a + b[..n];
      assert Flat(a) + Flat(b[..n]) + b[n] == Flat(a) + (Flat(b[..n]) + b[n]);
    }
  }

  lemma {:induction false} FlatMapOfBoth<T>(f: Item -> seq<T>, a: seq<Item>, b: seq<Item>)
    ensures FlatMap(f, a + b) == FlatMap(f, a) + FlatMap(f, b)
    decreases |a|
  {
    if a == [] {
      assert a + b == b;
    } else {
      FlatMapOfBoth(f, a[1..], b);
      assert (a + b)[1..] == a[1..] + b && (a + b)[0] == a[0];
      Associate(f(a[0]), FlatMap(f, a[1..]), FlatMap(f, b));
    }
  }

  lemma {:induction false} Associate<T>(a: seq<T>, b: seq<T>, c: seq<T>)
    ensures a + (b + c) == (a + b) + c
  {
  }

  lemma {:induction false} ListsAgree(f: Item -> Bytes, chunks: seq<seq<Bytes>>, items: seq<seq<Item>>)
    requires |chunks| == |items| && forall i | 0 <= i < |items| :: Flat(chunks[i]) == FlatMap(f, items[i])
    ensures Flat(Concat(chunks)) == FlatMap(f, Concat(items))
    decreases |items|
  {
    if items != [] {
      ListsAgree(f, chunks[1..], items[1..]);
      FlatOfBoth(chunks[0], Concat(chunks[1..]));
      FlatMapOfBoth(f, items[0], Concat(items[1..]));
    }
  }

  lemma {:induction false} FlatOfTwo(a: Bytes, b: Bytes)
    ensures Flat([a, b]) == a + b
  {
    AbsorbOne([], a);
    assert [a, b][..1] == [a];
  }

  lemma {:induction false} OwnChunksAreEntry(t: Payload, relative: Path)
    ensures Flat(HeaderChunks(t, relative) + BodyChunks(t)) == EntryBytes(Item(relative, KindOf(t)))
  {
    var kind, name := KindText(KindOf(t)), Joined(relative);
    var first, second := [Be64(|kind|), kind], [Be64(|name|), name];
    FlatOfTwo(Be64(|kind|), kind);
    FlatOfTwo(Be64(|name|), name);
    BodyChunksAreBody(t);
    FlatOfBoth(second, BodyChunks(t));
    FlatOfBoth(first, second + BodyChunks(t));
    assert HeaderChunks(t, relative) + BodyChunks(t) == first + (second + BodyChunks(t));
  }

  lemma {:induction false} BodyChunksAreBody(t: Payload)
    ensures Flat(BodyChunks(t)) == Body(KindOf(t))
  {
    match t
    case FileNode(parts) =>
      FlatOfBoth([Be64(|Flat(parts)|)], parts);
      AbsorbOne([], Be64(|Flat(parts)|));
    case DirNode(_) =>
    case LinkNode(target) =>
      FlatOfTwo(Be64(|target|), target);
    case OtherNode(length) =>
      AbsorbOne([], Be64(length));
  }

  /** The pieces put together are the identity stream, however the files were read. */
  lemma {:induction false} ChunksAreStream(t: Payload, relative: Path)
    ensures Flat(Chunks(t, relative)) == Stream(Items(t, relative))
    decreases t
  {
    var own := HeaderChunks(t, relative) + BodyChunks(t);
    var item := Item(relative, KindOf(t));
    OwnChunksAreEntry(t, relative);
    StreamOfOne(item);
    if t.DirNode? {
      var chunks, items := ChunkLists(t, relative), ItemLists(t, relative);
      forall i | 0 <= i < |items| ensures Flat(chunks[i]) == FlatMap(EntryBytes, items[i]) {
        ListOfChild(t, relative, i);
        ChunksOfChild(t, relative, i);
        ChunksAreStream(Children(t)[i].payload, relative + [Children(t)[i].name]);
        assert Stream(items[i]) == FlatMap(EntryBytes, items[i]);
      }
      ListsAgree(EntryBytes, chunks, items);
      FlatOfBoth(own, Concat(chunks));
      FlatMapOfBoth(EntryBytes, [item], Concat(items));
    } else {
      assert Chunks(t, relative) == own && Items(t, relative) == [item];
    }
  }

  lemma {:induction false} ChunksOfChild(t: Payload, relative: Path, i: nat)
    requires t.DirNode? && i < |Children(t)|
    ensures Children(t)[i] in t.listing
    ensures ChunkLists(t, relative)[i] == Chunks(Children(t)[i].payload, relative + [Children(t)[i].name])
  {
    assert Children(t)[i] in Children(t);
  }

  lemma {:induction false} StreamOfOne(x: Item)
    ensures Stream([x]) == EntryBytes(x)
  {
    FlatMapOfOne(EntryBytes, x);
  }

  lemma {:induction false} FlatMapOfOne<T>(f: Item -> seq<T>, x: Item)
    ensures FlatMap(f, [x]) == f(x)
  {
    var none: seq<Item> := [];
    assert [x][1..] == none && f(x) + [] == f(x);
  }

  // What reaches the hasher

  /** The message after successive updates. */
  function AbsorbAll(m: Bytes, chunks: seq<Bytes>): Bytes {
    if chunks == [] then m else Absorb(AbsorbAll(m, chunks[..|chunks| - 1]), chunks[|chunks| - 1])
  }

  lemma {:induction false} AbsorbBoth(m: Bytes, a: seq<Bytes>, b: seq<Bytes>)
    ensures AbsorbAll(m, a + b) == AbsorbAll(AbsorbAll(m, a), b)
    decreases |b|
  {
    if b == [] {
      assert a + b == a;
    } else {
      var n := |b| - 1;
      AbsorbBoth(m, a, b[..n]);
      assert (a + b)[..|a + b| - 1] == a + b[..n];
    }
  }

  /** Every piece either starts on a block boundary or reaches the end of a begun block. */
  predicate KeepsAll(length: nat, chunks: seq<Bytes>) {
    chunks == [] ||
    var front, last := chunks[..|chunks| - 1], chunks[|chunks| - 1];
    KeepsAll(length, front) && Keeps(length + |Flat(front)|, last)
  }

  lemma {:induction false} AbsorbAllLength(m: Bytes, chunks: seq<Bytes>)
    ensures KeepsAll(|m|, chunks) ==> AbsorbAll(m, chunks) == m + Flat(chunks)
    ensures !KeepsAll(|m|, chunks) ==> |AbsorbAll(m, chunks)| < |m| + |Flat(chunks)|
  {
    if chunks == [] {
      assert m + Flat(chunks) == m;
    } else {
      var n := |chunks| - 1;
      var front, last := chunks[..n], chunks[n];
      var before := AbsorbAll(m, front);
      AbsorbAllLength(m, front);
      AbsorbLength(before, last);
      Associate(m, Flat(front), last);
      if KeepsAll(|m|, front) {
        assert before == m + Flat(front);
      } else {
        assert |before| < |m| + |Flat(front)|;
      }
    }
  }

  lemma {:induction false} AbsorbLength(m: Bytes, input: Bytes)
    ensures Keeps(|m|, input) ==> Absorb(m, input) == m + input
    ensures !Keeps(|m|, input) ==> |Absorb(m, input)| < |m|
    ensures |Absorb(m, input)| <= |m| + |input|
  {
  }

  /** A sequence of updates hashes the concatenation of its inputs exactly when each of them fits; and if
      one does not, what is hashed is shorter for good. */
  lemma {:induction false} UpdatesHashAllExactlyWhenTheyFit(chunks: seq<Bytes>)
    ensures AbsorbAll([], chunks) == Flat(chunks) <==> KeepsAll(0, chunks)
  {
    AbsorbAllLength([], chunks);
    assert [] + Flat(chunks) == Flat(chunks);
  }

  /** One `update` of everything always fits. */
  lemma {:induction false} OneUpdateIsOneShot(f: Compressor, m: Bytes)
    ensures Finish(f, AbsorbAll([], [m]), 8 * |m|) == Digest(f, m)
  {
    AbsorbOne([], m);
    assert [] + m == m;
  }

  lemma {:induction false} AbsorbOne(m: Bytes, c: Bytes)
    ensures AbsorbAll(m, [c]) == Absorb(m, c) && Flat([c]) == c
  {
    var none: seq<Bytes> := [];
    assert [c][..0] == none && [] + c == c;
  }

  lemma {:induction false} AbsorbTwo(m: Bytes, c: Bytes, d: Bytes)
    ensures AbsorbAll(m, [c, d]) == Absorb(Absorb(m, c), d)
  {
    AbsorbOne(m, c);
    assert [c, d][..1] == [c];
  }

  // hash_entry and fingerprint

  method UpdateAll(hasher: Hasher, chunks: seq<Bytes>)
    requires hasher.Valid()
    modifies hasher, hasher.buffer
    ensures hasher.Valid() && hasher.message == AbsorbAll(old(hasher.message), chunks)
    ensures hasher.given == old(hasher.given) + |Flat(chunks)|
  {
    for i := 0 to |chunks|
      invariant hasher.Valid() && hasher.message == AbsorbAll(old(hasher.message), chunks[..i])
      invariant hasher.given == old(hasher.given) + |Flat(chunks[..i])|
    {
      hasher.Update(chunks[i]);
      assert chunks[..i + 1][..i] == chunks[..i];
    }
    assert chunks[..|chunks|] == chunks;
  }

  method HashEntry(t: Payload, relative: Path, hasher: Hasher)
    requires hasher.Valid()
    modifies hasher, hasher.buffer
    ensures hasher.Valid() && hasher.message == AbsorbAll(old(hasher.message), Chunks(t, relative))
    ensures hasher.given == old(hasher.given) + |Flat(Chunks(t, relative))|
    decreases t, 1
  {
    UpdateAll(hasher, OwnChunks(t, relative));
    ChunksSplit(old(hasher.message), t, relative);
    if t.DirNode? {
      HashChildren(t, relative, hasher);
    }
  }

  /** The loop over the sorted children. */
  method HashChildren(t: Payload, relative: Path, hasher: Hasher)
    requires hasher.Valid() && t.DirNode?
    modifies hasher, hasher.buffer
    ensures hasher.Valid() && hasher.message == AbsorbAll(old(hasher.message), Concat(ChunkLists(t, relative)))
    ensures hasher.given == old(hasher.given) + |Flat(Concat(ChunkLists(t, relative)))|
    decreases t, 0
  {
    var children := Children(t);
    ghost var lists := ChunkLists(t, relative);
    for i := 0 to |children|
      invariant hasher.Valid() && hasher.message == AbsorbAll(old(hasher.message), Concat(lists[..i]))
      invariant hasher.given == old(hasher.given) + |Flat(Concat(lists[..i]))|
    {
      ChunksOfChild(t, relative, i);
      HashEntry(children[i].payload, relative + [children[i].name], hasher);
      NextList(old(hasher.message), lists, i);
    }
    assert lists[..|children|] == lists;
  }

  function OwnChunks(t: Payload, relative: Path): seq<Bytes> {
    HeaderChunks(t, relative) + BodyChunks(t)
  }

  lemma {:induction false} ChunksSplit(m: Bytes, t: Payload, relative: Path)
    ensures var own := OwnChunks(t, relative);
            var below := if t.DirNode? then Concat(ChunkLists(t, relative)) else [];
            && AbsorbAll(m, Chunks(t, relative)) == AbsorbAll(AbsorbAll(m, own), below)
            && |Flat(Chunks(t, relative))| == |Flat(own)| + |Flat(below)|
  {
    var own := OwnChunks(t, relative);
    var below := if t.DirNode? then Concat(ChunkLists(t, relative)) else [];
    AbsorbBoth(m, own, below);
    FlatOfBoth(own, below);
  }

  lemma {:induction false} ConcatPush<T>(lists: seq<seq<T>>, i: nat)
    requires i < |lists|
    ensures Concat(lists[..i + 1]) == Concat(lists[..i]) + lists[i]
  {
    if i == 0 {
      assert lists[..1] == [lists[0]] && [lists[0]][1..] == [];
      assert Concat(lists[..1]) == lists[0] + [] == [] + lists[0];
    } else {
      ConcatPush(lists[1..], i - 1);
      assert lists[..i + 1][1..] == lists[1..][..i] && lists[..i][1..] == lists[1..][..i - 1];
    }
  }

  lemma {:induction false} NextList(m: Bytes, lists: seq<seq<Bytes>>, i: nat)
    requires i < |lists|
    ensures AbsorbAll(m, Concat(lists[..i + 1])) == AbsorbAll(AbsorbAll(m, Concat(lists[..i])), lists[i])
    ensures |Flat(Concat(lists[..i + 1]))| == |Flat(Concat(lists[..i]))| + |Flat(lists[i])|
  {
    ConcatPush(lists, i);
    AbsorbBoth(m, Concat(lists[..i]), lists[i]);
    FlatOfBoth(Concat(lists[..i]), lists[i]);
  }

  /** The digest after successive updates of a fresh hasher. */
  function DigestOfUpdates(f: Compressor, chunks: seq<Bytes>): Bytes {
    Finish(f, AbsorbAll([], chunks), 8 * |Flat(chunks)|)
  }

  /** What the program takes as the identity of a payload. */
  function FingerprintOf(f: Compressor, t: Payload): Bytes {
    DigestOfUpdates(f, Chunks(t, []))
  }

  method Fingerprint(f: Compressor, t: Payload) returns (digest: Bytes)
    ensures digest == FingerprintOf(f, t)
  {
    var hasher := new Hasher(f);
    HashEntry(t, [], hasher);
    digest := Conclude(hasher, Chunks(t, []));
  }

  method Conclude(hasher: Hasher, ghost chunks: seq<Bytes>) returns (digest: Bytes)
    requires hasher.Valid() && hasher.message == AbsorbAll([], chunks) && hasher.given == |Flat(chunks)|
    modifies hasher, hasher.buffer
    ensures digest == DigestOfUpdates(hasher.compress, chunks)
  {
    digest := hasher.Finalize();
  }

  /** `fingerprint`, over the compression of FIPS 180-4. */
  method FingerprintPath(t: Payload) returns (digest: Bytes)
    ensures digest == FingerprintOf(C.Sha256Compression(), t) && |digest| == 32
  {
    digest := Fingerprint(C.Sha256Compression(), t);
    C.CompressionKeepsWidth();
    FinishHas32Bytes(C.Sha256Compression(), AbsorbAll([], Chunks(t, [])), 8 * |Flat(Chunks(t, []))|);
  }

  method UpdateAllRepaired(hasher: Hasher, chunks: seq<Bytes>)
    requires hasher.Valid()
    modifies hasher, hasher.buffer
    ensures hasher.Valid() && hasher.message == old(hasher.message) + Flat(chunks)
    ensures hasher.given == old(hasher.given) + |Flat(chunks)|
  {
    assert hasher.message + Flat([]) == hasher.message;
    for i := 0 to |chunks|
      invariant hasher.Valid() && hasher.message == old(hasher.message) + Flat(chunks[..i])
      invariant hasher.given == old(hasher.given) + |Flat(chunks[..i])|
    {
      hasher.UpdateRepaired(chunks[i]);
      assert chunks[..i + 1][..i] == chunks[..i];
      Associate(old(hasher.message), Flat(chunks[..i]), chunks[i]);
    }
    assert chunks[..|chunks|] == chunks;
  }

  /** With the repaired update, the pieces do not matter. */
  method RepairedHash(f: Compressor, chunks: seq<Bytes>) returns (digest: Bytes)
    ensures digest == Digest(f, Flat(chunks))
  {
    var hasher := new Hasher(f);
    UpdateAllRepaired(hasher, chunks);
    NothingBefore(Flat(chunks));
    digest := ConcludeWhole(hasher, Flat(chunks));
  }

  lemma {:induction false} NothingBefore(m: Bytes)
    ensures [] + m == m
  {
  }

  method ConcludeWhole(hasher: Hasher, ghost m: Bytes) returns (digest: Bytes)
    requires hasher.Valid() && hasher.message == m && hasher.given == |m|
    modifies hasher, hasher.buffer
    ensures digest == Digest(hasher.compress, m)
  {
    digest := hasher.Finalize();
  }

  /** So the fingerprint would be the SHA-256 of the identity stream. */
  method RepairedFingerprint(f: Compressor, t: Payload) returns (digest: Bytes)
    ensures digest == Digest(f, Stream(Items(t, [])))
  {
    ChunksAreStream(t, []);
    digest := RepairedHash(f, Chunks(t, []));
  }

  // What the fingerprint misses

  /** The kind of an entry, pending in the buffer with its length, is dropped by the update that
      brings it. */
  lemma {:induction false} KindIsLost(t: Payload, rest: seq<Bytes>)
    ensures var kind := KindText(KindOf(t));
            AbsorbAll([], [Be64(|kind|), kind] + rest) == AbsorbAll([], rest)
  {
    var kind := KindText(KindOf(t));
    var size := Be64(|kind|);
    AbsorbBoth([], [size, kind], rest);
    AbsorbTwo([], size, kind);
    assert Absorb([], size) == [] + size == size && Absorb(size, kind) == size[..0] == [];
  }

  lemma {:induction false} FirstChunks(t: Payload)
    ensures var chunks, kind := Chunks(t, []), KindText(KindOf(t));
            |chunks| >= 2 && chunks == [Be64(|kind|), kind] + chunks[2..]
  {
  }

  lemma {:induction false} KindNeverShows(t: Payload, rest: seq<Bytes>)
    ensures var kind := KindText(KindOf(t));
            var chunks := [Be64(|kind|), kind] + rest;
            |AbsorbAll([], chunks)| < |Flat(chunks)|
  {
    var kind := KindText(KindOf(t));
    KindIsLost(t, rest);
    AbsorbAllLength([], rest);
    FlatOfBoth([Be64(|kind|), kind], rest);
    FlatOfTwo(Be64(|kind|), kind);
  }

  /** No tree at all has its whole identity stream hashed. */
  lemma {:induction false} NoStreamIsHashedWhole(t: Payload)
    ensures |AbsorbAll([], Chunks(t, []))| < |Stream(Items(t, []))|
  {
    ChunksAreStream(t, []);
    FirstChunks(t);
    KindNeverShows(t, Chunks(t, [])[2..]);
  }

  /** What is hashed for a single file: the length and the contents as far as the reads keep them; nothing
      of the kind. */
  lemma {:induction false} FileMessage(parts: seq<Bytes>)
    ensures AbsorbAll([], Chunks(FileNode(parts), [])) == AbsorbAll(Be64(|Flat(parts)|), parts)
    ensures AbsorbAll([], Chunks(FileNode(parts), [])) == Be64(|Flat(parts)|) + Flat(parts) <==> KeepsAll(8, parts)
  {
    var t, size := FileNode(parts), Be64(|Flat(parts)|);
    var empty: Bytes := [];
    var none := Be64(0);
    assert Chunks(t, []) == [Be64(|FILE|), FILE] + ([none, empty] + ([size] + parts));
    KindIsLost(t, [none, empty] + ([size] + parts));
    AbsorbBoth([], [none, empty], [size] + parts);
    AbsorbTwo([], none, empty);
    assert Absorb([], none) == [] + none == none && Absorb(none, empty) == none[..0] == [];
    AbsorbBoth([], [size], parts);
    AbsorbOne([], size);
    assert Absorb([], size) == [] + size == size;
    AbsorbAllLength(size, parts);
  }

  /** The buffer of the read loop. */
  const READ_SIZE := 65536

  /** What the loop reads when every read fills the buffer until the end of the file. */
  predicate ReadInFull(parts: seq<Bytes>) {
    forall i | 0 <= i < |parts| :: if i < |parts| - 1 then |parts[i]| == READ_SIZE else 0 < |parts[i]| <= READ_SIZE
  }

  lemma {:induction false} FullReadsKeep(parts: seq<Bytes>)
    requires forall i | 0 <= i < |parts| :: |parts[i]| == READ_SIZE
    ensures |Flat(parts)| == READ_SIZE * |parts| && KeepsAll(8, parts)
  {
    if parts != [] {
      FullReadsKeep(parts[..|parts| - 1]);
    }
  }

  /** What is hashed of a file with the length field `size` and the contents `data`: everything, if the
      length leaves no rest over the size of the buffer, or one of at least 56 bytes; otherwise the last read
      is lost, and the eight bytes before it. */
  function ReadMessage(size: Bytes, data: Bytes): Bytes
    requires |size| == 8
  {
    var n := |data|;
    if n % READ_SIZE == 0 || n % READ_SIZE >= 56 then size + data else (size + data)[..READ_SIZE * (n / READ_SIZE)]
  }

  /** The last read of a file, after `k` full ones. */
  lemma {:induction false} LastRead(size: Bytes, front: Bytes, last: Bytes, k: nat)
    requires |size| == 8 && |front| == READ_SIZE * k && 0 < |last| <= READ_SIZE
    ensures ReadMessage(size, front + last) == Absorb(size + front, last)
  {
    RestOfRead(k, |last|);
    assert |size + front| == 8 + 64 * (1024 * k);
    if |last| < 56 {
      assert (size + front)[..READ_SIZE * k] == (size + (front + last))[..READ_SIZE * k];
    } else {
      assert (size + front) + last == size + (front + last);
    }
  }

  lemma {:induction false} RestOfRead(k: nat, m: nat)
    requires 0 < m <= READ_SIZE
    ensures (READ_SIZE * k + m) % READ_SIZE == if m == READ_SIZE then 0 else m
    ensures m < READ_SIZE ==> (READ_SIZE * k + m) / READ_SIZE == k
  {
  }

  lemma {:induction false} BufferedReads(size: Bytes, parts: seq<Bytes>)
    requires |size| == 8 && ReadInFull(parts)
    ensures AbsorbAll(size, parts) == ReadMessage(size, Flat(parts))
  {
    if parts == [] {
      assert size + [] == size;
    } else {
      var front, last := parts[..|parts| - 1], parts[|parts| - 1];
      FullReadsKeep(front);
      AbsorbAllLength(size, front);
      LastRead(size, Flat(front), last, |front|);
    }
  }

  lemma {:induction false} BufferedFileMessage(parts: seq<Bytes>)
    requires ReadInFull(parts)
    ensures AbsorbAll([], Chunks(FileNode(parts), [])) == ReadMessage(Be64(|Flat(parts)|), Flat(parts))
  {
    FileMessage(parts);
    BufferedReads(Be64(|Flat(parts)|), parts);
  }

  /** So a file read through the buffer is hashed whole if and only if its length leaves no rest over the size
      of the buffer, or one of at least 56 bytes. */
  lemma {:induction false} BufferedFileIsHashedIff(parts: seq<Bytes>)
    requires ReadInFull(parts)
    ensures var n := |Flat(parts)|;
            AbsorbAll([], Chunks(FileNode(parts), [])) == Be64(n) + Flat(parts) <==>
            n % 65536 == 0 || n % 65536 >= 56
  {
    var n := |Flat(parts)|;
    BufferedFileMessage(parts);
    assert READ_SIZE * (n / READ_SIZE) <= n;
  }

  // Read in full, the fingerprint is a function of the tree

  /** The reads of a file of these contents, when each fills the buffer until the end. */
  function Cut(data: Bytes): seq<Bytes> {
    if data == [] then []
    else if |data| <= READ_SIZE then [data]
    else [data[..READ_SIZE]] + Cut(data[READ_SIZE..])
  }

  lemma {:induction false} FlatOfFirst(parts: seq<Bytes>)
    requires parts != []
    ensures Flat(parts) == parts[0] + Flat(parts[1..])
  {
    FlatOfBoth([parts[0]], parts[1..]);
    AbsorbOne([], parts[0]);
    assert parts == [parts[0]] + parts[1..];
  }

  lemma {:induction false} FullReadsAreCut(parts: seq<Bytes>)
    requires ReadInFull(parts)
    ensures parts == Cut(Flat(parts))
  {
    if parts != [] {
      FlatOfFirst(parts);
      FullReadsAreCut(parts[1..]);
      var data, rest := Flat(parts), parts[1..];
      if rest == [] {
        assert data == parts[0] + [] == parts[0] && parts == [parts[0]];
      } else {
        FlatOfFirst(rest);
        assert data[..READ_SIZE] == parts[0] && data[READ_SIZE..] == Flat(rest);
        assert parts == [parts[0]] + rest;
      }
    }
  }

  /** Every file of the tree is read so. */
  predicate ReadsInFull(t: Payload) {
    match t
    case FileNode(parts) => ReadInFull(parts)
    case DirNode(listing) => forall i | 0 <= i < |listing| :: ReadsInFull(listing[i].payload)
    case _ => true
  }

  /** The pieces of one entry. */
  function ItemChunks(x: Item): seq<Bytes> {
    var kind, name := KindText(x.kind), Joined(x.path);
    [Be64(|kind|), kind, Be64(|name|), name] +
    match x.kind
    case File(data) => [Be64(|data|)] + Cut(data)
    case Dir => []
    case Symlink(target) => [Be64(|target|), target]
    case Other(length) => [Be64(length)]
  }

  function AllChunks(items: seq<Item>): seq<Bytes> {
    FlatMap(ItemChunks, items)
  }

  lemma {:induction false} ChunkListsAgree(f: Item -> seq<Bytes>, chunks: seq<seq<Bytes>>,
                                           items: seq<seq<Item>>)
    requires |chunks| == |items| && forall i | 0 <= i < |items| :: chunks[i] == FlatMap(f, items[i])
    ensures Concat(chunks) == FlatMap(f, Concat(items))
    decreases |items|
  {
    if items != [] {
      ChunkListsAgree(f, chunks[1..], items[1..]);
      FlatMapOfBoth(f, items[0], Concat(items[1..]));
    }
  }

  lemma {:induction false} OwnChunksAreItem(t: Payload, relative: Path)
    requires ReadsInFull(t)
    ensures OwnChunks(t, relative) == ItemChunks(Item(relative, KindOf(t)))
    ensures AllChunks([Item(relative, KindOf(t))]) == OwnChunks(t, relative)
  {
    if t.FileNode? { FullReadsAreCut(t.parts); }
    FlatMapOfOne(ItemChunks, Item(relative, KindOf(t)));
  }

  /** The pieces given to the hasher are those of the entries of the tree. */
  lemma {:induction false} ChunksAreOfItems(t: Payload, relative: Path)
    requires ReadsInFull(t)
    ensures Chunks(t, relative) == AllChunks(Items(t, relative))
    decreases t
  {
    var own, item := OwnChunks(t, relative), Item(relative, KindOf(t));
    OwnChunksAreItem(t, relative);
    if t.DirNode? {
      var chunks, items := ChunkLists(t, relative), ItemLists(t, relative);
      forall i | 0 <= i < |items| ensures chunks[i] == AllChunks(items[i]) {
        ListOfChild(t, relative, i);
        ChunksOfChild(t, relative, i);
        ChunksAreOfItems(Children(t)[i].payload, relative + [Children(t)[i].name]);
      }
      ChunkListsAgree(ItemChunks, chunks, items);
      FlatMapOfBoth(ItemChunks, [item], Concat(items));
    } else {
      assert Chunks(t, relative) == own && Items(t, relative) == [item];
    }
  }

  /** With every file read in full, trees with the same contents have the same fingerprint, whatever the order
      of their listings: there it is a function of the tree. */
  lemma {:induction false} FingerprintIsOfTheTree(f: Compressor, t: Payload, u: Payload)
    requires WellNamed(t) && WellNamed(u) && ReadsInFull(t) && ReadsInFull(u) && SameContents(t, u)
    ensures FingerprintOf(f, t) == FingerprintOf(f, u)
  {
    SameContentsSameItems(t, u);
    ChunksAreOfItems(t, []);
    ChunksAreOfItems(u, []);
  }

  lemma {:induction false} AbsorbAfterSize(size: Bytes, a: Bytes)
    requires |size| == 8
    ensures Absorb(size, a) == if |a| >= 56 then size + a else []
  {
    assert size[..0] == [];
  }

  /** A file that is read in one piece shows in the hashed message exactly from 56 bytes on: shorter files
      of one length are all the same to it. */
  lemma {:induction false} OnePieceFilesDifferFrom56BytesOn(a: Bytes, b: Bytes)
    requires |a| == |b|
    ensures AbsorbAll([], Chunks(FileNode([a]), [])) == AbsorbAll([], Chunks(FileNode([b]), [])) <==> a == b || |a| < 56
  {
    OnePieceMessage(a);
    OnePieceMessage(b);
    var size := Be64(|a|);
    assert (size + a)[8..] == a && (size + b)[8..] == b;
  }

  lemma {:induction false} OnePieceMessage(a: Bytes)
    ensures AbsorbAll([], Chunks(FileNode([a]), [])) == if |a| >= 56 then Be64(|a|) + a else []
  {
    FileMessage([a]);
    AbsorbOne(Be64(|a|), a);
    AbsorbAfterSize(Be64(|a|), a);
  }

  /** So files of one length below 56 bytes have one fingerprint, whatever the compression function. */
  lemma {:induction false} SmallFilesShareTheirFingerprint(f: Compressor, a: Bytes, b: Bytes)
    requires |a| == |b| < 56
    ensures FingerprintOf(f, FileNode([a])) == FingerprintOf(f, FileNode([b]))
  {
    OnePieceFilesDifferFrom56BytesOn(a, b);
    ChunksAreStream(FileNode([a]), []);
    ChunksAreStream(FileNode([b]), []);
    AbsorbOne([], a);
    AbsorbOne([], b);
    FlatOfBoth(HeaderChunks(FileNode([a]), []), BodyChunks(FileNode([a])));
    FlatOfBoth(HeaderChunks(FileNode([b]), []), BodyChunks(FileNode([b])));
    BodyChunksAreBody(FileNode([a]));
    BodyChunksAreBody(FileNode([b]));
  }
}
