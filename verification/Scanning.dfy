/** The parallel scan: workers send records in any order, one aggregator folds each into its ancestors. */
module Scanning {
  import opened Base

  const MAX_U64: nat := 0xffff_ffff_ffff_ffff

  datatype EntryKind = File | Directory | Symlink | Other

  datatype Record = Record(path: Path, kind: EntryKind, size: nat, onDisk: nat, mtime: Option<int>)

  datatype Message = Entry(record: Record) | Error

  datatype DirAgg = DirAgg(total: nat, onDisk: nat, files: nat, dirs: nat, symlinks: nat, maxMtime: Option<int>)

  const EMPTY := DirAgg(0, 0, 0, 0, 0, None)

  function SaturatingAdd(a: nat, b: nat): nat {
    if a + b > MAX_U64 then MAX_U64 else a + b
  }

  /** One record added to the totals of directory `d`. */
  function Bump(agg: DirAgg, r: Record, d: Path): DirAgg {
    DirAgg(
      SaturatingAdd(agg.total, r.size),
      SaturatingAdd(agg.onDisk, r.onDisk),
      agg.files + if r.kind == File then 1 else 0,
      agg.dirs + if r.kind == Directory && r.path != d then 1 else 0,
      agg.symlinks + if r.kind == Symlink then 1 else 0,
      Later(agg.maxMtime, r.mtime))
  }

  /** The totals of `d` after the given records, if there are any yet. */
  function Folded(root: Path, records: seq<Record>, d: Path): Option<DirAgg> {
    if records == [] then if d == root then Some(EMPTY) else None
    else
      var r, before := records[|records| - 1], Folded(root, records[..|records| - 1], d);
      if root <= d <= r.path then Some(Bump(if before.Some? then before.value else EMPTY, r, d)) else before
  }

  function RecordsOf(messages: seq<Message>): seq<Record> {
    if messages == [] then []
    else
      var m := messages[|messages| - 1];
      RecordsOf(messages[..|messages| - 1]) + if m.Entry? then [m.record] else []
  }

  /** How many entries were both received and inserted. */
  function Inserted(messages: seq<Message>, inserted: seq<bool>): nat
    requires |messages| == |inserted|
  {
    if messages == [] then 0
    else
      var n := |messages| - 1;
      Inserted(messages[..n], inserted[..n]) + if messages[n].Entry? && inserted[n] then 1 else 0
  }

  /** The walk up from `p` has gone past `d`. */
  predicate Passed(root: Path, p: Path, current: Option<Path>, d: Path) {
    root <= d <= p && (current.Some? ==> !(d <= current.value))
  }

  lemma {:induction false} PassOne(root: Path, p: Path, at: Path, d: Path)
    requires at <= p
    ensures var next := if at == root || at == [] then None else Some(Parent(at));
            Passed(root, p, next, d) <==> Passed(root, p, Some(at), d) || (d == at && root <= at)
  {
    if at != [] && d <= at && d != at {
      assert d == at[..|d|] == Parent(at)[..|d|];
    }
  }

  lemma {:induction false} FoldedPush(root: Path, records: seq<Record>, r: Record)
    ensures forall d :: Folded(root, records + [r], d) ==
              var before := Folded(root, records, d);
              if root <= d <= r.path then Some(Bump(if before.Some? then before.value else EMPTY, r, d)) else before
  {
    assert (records + [r])[..|records + [r]| - 1] == records;
  }

  class Scan {
    const root: Path
    var aggregations: map<Path, DirAgg>
    var entries: nat
    var errors: nat
    ghost var records: seq<Record>

    /** The map holds exactly the totals of the records folded so far. */
    ghost predicate Valid()
      reads this
    {
      && (forall d :: d in aggregations <==> Folded(root, records, d).Some?)
      && (forall d | d in aggregations :: aggregations[d] == Folded(root, records, d).value)
    }

    constructor (root: Path)
      ensures Valid() && this.root == root && records == [] && entries == 0 && errors == 0
    {
      this.root := root;
      aggregations := map[root := EMPTY];
      entries, errors, records := 0, 0, [];
    }

    /** `aggregate_record`: the parent walk from the record's path up to the root. */
    method AggregateRecord(r: Record)
      requires Valid()
      modifies this`aggregations, this`records
      ensures Valid() && records == old(records) + [r]
    {
      var current := Some(r.path);
      while current.Some?
        invariant records == old(records) && (current.Some? ==> current.value <= r.path)
        invariant forall d :: d in aggregations <==> d in old(aggregations) || Passed(root, r.path, current, d)
        invariant forall d | d in aggregations ::
                    aggregations[d] ==
                      if !Passed(root, r.path, current, d) then old(aggregations)[d]
                      else Bump(if d in old(aggregations) then old(aggregations)[d] else EMPTY, r, d)
        decreases if current.Some? then |current.value| + 1 else 0
      {
        var path := current.value;
        var next := if path == root || path == [] then None else Some(Parent(path));
        forall d
          ensures Passed(root, r.path, next, d) <==> Passed(root, r.path, current, d) || (d == path && root <= path)
        {
          PassOne(root, r.path, path, d);
        }
        if root <= path {
          var agg := if path in aggregations then aggregations[path] else EMPTY;
          aggregations := aggregations[path := Bump(agg, r, path)];
        }
        current := next;
      }
      records := records + [r];
      FoldedPush(root, old(records), r);
    }

    /** The message loop of `scan_path`. */
    method Receive(messages: seq<Message>, inserted: seq<bool>)
      requires Valid() && |messages| == |inserted|
      modifies this
      ensures Valid() && records == old(records) + RecordsOf(messages)
      ensures entries == old(entries) + Inserted(messages, inserted)
      ensures entries + errors == old(entries) + old(errors) + |messages|
    {
      for n := 0 to |messages|
        invariant Valid() && records == old(records) + RecordsOf(messages[..n])
        invariant entries == old(entries) + Inserted(messages[..n], inserted[..n])
        invariant entries + errors == old(entries) + old(errors) + n
      {
        assert messages[..n + 1][..n] == messages[..n] && inserted[..n + 1][..n] == inserted[..n];
        match messages[n]
        case Entry(record) =>
          AggregateRecord(record);
          if inserted[n] { entries := entries + 1; } else { errors := errors + 1; }
        case Error =>
          errors := errors + 1;
      }
      assert messages[..|messages|] == messages && inserted[..|messages|] == inserted;
    }
  }

  // What the totals are

  function Size(records: seq<Record>, d: Path): nat {
    if records == [] then 0
    else
      var r := records[|records| - 1];
      Size(records[..|records| - 1], d) + if d <= r.path then r.size else 0
  }

  function Allocated(records: seq<Record>, d: Path): nat {
    if records == [] then 0
    else
      var r := records[|records| - 1];
      Allocated(records[..|records| - 1], d) + if d <= r.path then r.onDisk else 0
  }

  function Kinds(records: seq<Record>, d: Path, kind: EntryKind): nat {
    if records == [] then 0
    else
      var r := records[|records| - 1];
      Kinds(records[..|records| - 1], d, kind) +
      if d <= r.path && r.kind == kind && (kind == Directory ==> r.path != d) then 1 else 0
  }

  function Least(a: nat, b: nat): nat {
    if a < b then a else b
  }

  ghost predicate LatestOf(records: seq<Record>, d: Path, m: Option<int>) {
    && (forall r | r in records && d <= r.path && r.mtime.Some? :: m.Some? && r.mtime.value <= m.value)
    && (m.Some? ==> exists r :: r in records && d <= r.path && r.mtime == m)
  }

  /** Each directory's totals are the saturated sums over the records at or below it, and its counts are exact. */
  lemma {:induction false} TotalsAreSubtreeSums(root: Path, records: seq<Record>, d: Path)
    requires root <= d
    ensures Folded(root, records, d).Some? ==>
              var a := Folded(root, records, d).value;
              && a.total == Least(0xffff_ffff_ffff_ffff, Size(records, d))
              && a.onDisk == Least(0xffff_ffff_ffff_ffff, Allocated(records, d))
              && a.files == Kinds(records, d, File)
              && a.dirs == Kinds(records, d, Directory)
              && a.symlinks == Kinds(records, d, Symlink)
    ensures Folded(root, records, d).None? ==>
              Size(records, d) == Allocated(records, d) == Kinds(records, d, File) == Kinds(records, d, Directory)
                == Kinds(records, d, Symlink) == 0
  {
    if records != [] { TotalsAreSubtreeSums(root, records[..|records| - 1], d); }
  }

  /** The root and every directory at or above a record has totals, nothing else has, and the time is the
      latest there is. */
  lemma {:induction false} TotalsExist(root: Path, records: seq<Record>, d: Path)
    requires root <= d
    ensures Folded(root, records, d).Some? <==> d == root || exists r :: r in records && d <= r.path
    ensures Folded(root, records, d).Some? ==> LatestOf(records, d, Folded(root, records, d).value.maxMtime)
  {
    if records != [] {
      var n := |records| - 1;
      var r := records[n];
      TotalsExist(root, records[..n], d);
      assert records == records[..n] + [r];
      assert forall x :: x in records <==> x in records[..n] || x == r;
    }
  }

  // Schedules

  lemma {:induction false} BumpsCommute(agg: DirAgg, r: Record, s: Record, d: Path)
    ensures Bump(Bump(agg, r, d), s, d) == Bump(Bump(agg, s, d), r, d)
  {
  }

  lemma {:induction false} LastTwoSwap(root: Path, rest: seq<Record>, r: Record, s: Record, d: Path)
    ensures Folded(root, rest + [r] + [s], d) == Folded(root, rest + [s] + [r], d)
  {
    FoldedPush(root, rest, r);
    FoldedPush(root, rest, s);
    FoldedPush(root, rest + [r], s);
    FoldedPush(root, rest + [s], r);
    var before := Folded(root, rest, d);
    BumpsCommute(if before.Some? then before.value else EMPTY, r, s, d);
  }

  /** A record may as well have come last. */
  lemma {:induction false} MoveToEnd(root: Path, records: seq<Record>, k: nat, d: Path)
    requires k < |records|
    ensures Folded(root, records[..k] + records[k + 1..] + [records[k]], d) == Folded(root, records, d)
  {
    var n := |records| - 1;
    if k == n {
      assert records[..k] + records[k + 1..] + [records[k]] == records;
    } else {
      var front, last := records[..n], records[n];
      var rest := front[..k] + front[k + 1..];
      MoveToEnd(root, front, k, d);
      assert records[..k] + records[k + 1..] == rest + [last] && records == front + [last];
      LastTwoSwap(root, rest, last, records[k], d);
      FoldedPush(root, rest + [records[k]], last);
      FoldedPush(root, front, last);
    }
  }

  /** Sequences with the same elements: where the one's last element is in the other. */
  lemma {:induction false} Locate<T>(rest: seq<T>, x: T, b: seq<T>) returns (k: nat)
    requires multiset(rest + [x]) == multiset(b)
    ensures k < |b| && b[k] == x && b == b[..k] + ([x] + b[k + 1..])
    ensures multiset(b[..k] + b[k + 1..]) == multiset(rest) && |b| == |rest| + 1
  {
    assert |rest + [x]| == |multiset(rest + [x])| == |multiset(b)| == |b|;
    assert x in multiset(b);
    k :| 0 <= k < |b| && b[k] == x;
    assert b == b[..k] + ([x] + b[k + 1..]);
    assert multiset(b) == multiset(b[..k]) + multiset{x} + multiset(b[k + 1..]);
    assert multiset(rest + [x]) == multiset(rest) + multiset{x};
    var others := b[..k] + b[k + 1..];
    assert multiset(others) == multiset(b[..k]) + multiset(b[k + 1..]);
    assert multiset(others) + multiset{x} == multiset(rest) + multiset{x};
    assert multiset(others) == multiset(others) + multiset{x} - multiset{x};
    assert multiset(rest) == multiset(rest) + multiset{x} - multiset{x};
  }

  /** The totals depend on the records only as a multiset. */
  lemma {:induction false} OrderDoesNotMatter(root: Path, a: seq<Record>, b: seq<Record>, d: Path)
    requires multiset(a) == multiset(b)
    ensures Folded(root, a, d) == Folded(root, b, d)
    decreases |a|
  {
    if a == [] {
      assert |b| == |multiset(b)| == 0;
    } else {
      var n := |a| - 1;
      assert a == a[..n] + [a[n]];
      var k := Locate(a[..n], a[n], b);
      var rest := b[..k] + b[k + 1..];
      OrderDoesNotMatter(root, a[..n], rest, d);
      MoveToEnd(root, b, k, d);
      FoldedPush(root, a[..n], a[n]);
      FoldedPush(root, rest, a[n]);
    }
  }

  /** One way in which the messages of several workers arrive: each worker's own stay in order. */
  ghost predicate Interleaves(streams: seq<seq<Message>>, arrived: seq<Message>)
    decreases |arrived|
  {
    if arrived == [] then forall w | 0 <= w < |streams| :: streams[w] == []
    else exists w :: 0 <= w < |streams| && Sends(streams, w, arrived[0])
           && Interleaves(streams[w := streams[w][1..]], arrived[1..])
  }

  predicate Sends(streams: seq<seq<Message>>, w: int, m: Message) {
    0 <= w < |streams| && streams[w] != [] && streams[w][0] == m
  }

  function Together(streams: seq<seq<Message>>): multiset<Message> {
    if streams == [] then multiset{} else multiset(streams[0]) + Together(streams[1..])
  }

  lemma {:induction false} TakeOne(streams: seq<seq<Message>>, w: nat)
    requires w < |streams| && streams[w] != []
    ensures Together(streams) == multiset{streams[w][0]} + Together(streams[w := streams[w][1..]])
  {
    var next := streams[w := streams[w][1..]];
    if w == 0 {
      assert streams[0] == [streams[0][0]] + streams[0][1..];
      assert next[1..] == streams[1..];
    } else {
      TakeOne(streams[1..], w - 1);
      assert next[1..] == streams[1..][w - 1 := streams[w][1..]];
    }
  }

  lemma {:induction false} NothingLeft(streams: seq<seq<Message>>)
    requires forall w | 0 <= w < |streams| :: streams[w] == []
    ensures Together(streams) == multiset{}
  {
    if streams != [] { NothingLeft(streams[1..]); }
  }

  /** Whatever the interleaving, exactly the workers' messages arrive. */
  lemma {:induction false} NothingIsLost(streams: seq<seq<Message>>, arrived: seq<Message>)
    requires Interleaves(streams, arrived)
    ensures multiset(arrived) == Together(streams)
    decreases |arrived|
  {
    if arrived == [] {
      NothingLeft(streams);
    } else {
      var w :| 0 <= w < |streams| && Sends(streams, w, arrived[0])
        && Interleaves(streams[w := streams[w][1..]], arrived[1..]);
      TakeOne(streams, w);
      NothingIsLost(streams[w := streams[w][1..]], arrived[1..]);
      assert arrived == [arrived[0]] + arrived[1..];
    }
  }

  // resolve_jobs and chunk_paths

  /** As many jobs as were asked for, or as the machine runs in parallel; but no more than there are items,
      and at least one. */
  function ResolveJobs(requested: Option<nat>, parallelism: nat, items: nat): (jobs: nat)
    ensures 1 <= jobs && (items > 0 ==> jobs <= items)
    ensures jobs > 1 ==> jobs <= items && jobs <= if requested.Some? then requested.value else parallelism
    ensures jobs >= items || jobs >= if requested.Some? then requested.value else parallelism
  {
    var wanted := if requested.Some? then requested.value else parallelism;
    var atLeastOne := if wanted < 1 then 1 else wanted;
    var most := if items < 1 then 1 else items;
    if atLeastOne < most then atLeastOne else most
  }

  function Flat(chunks: seq<seq<Path>>): seq<Path> {
    if chunks == [] then [] else chunks[0] + Flat(chunks[1..])
  }

  function Deal(chunks: seq<seq<Path>>, w: nat, p: Path): (r: seq<seq<Path>>)
    requires w < |chunks|
    ensures |r| == |chunks| && multiset(Flat(r)) == multiset(Flat(chunks)) + multiset{p}
  {
    FlatPush(chunks, w, p);
    chunks[w := chunks[w] + [p]]
  }

  lemma {:induction false} FlatPush(chunks: seq<seq<Path>>, w: nat, p: Path)
    requires w < |chunks|
    ensures multiset(Flat(chunks[w := chunks[w] + [p]])) == multiset(Flat(chunks)) + multiset{p}
  {
    var next := chunks[w := chunks[w] + [p]];
    if w == 0 {
      assert next[1..] == chunks[1..];
    } else {
      FlatPush(chunks[1..], w - 1, p);
      assert next[1..] == chunks[1..][w - 1 := chunks[w] + [p]];
    }
  }

  lemma {:induction false} FlatOfEmpty(chunks: seq<seq<Path>>)
    requires forall w | 0 <= w < |chunks| :: chunks[w] == []
    ensures Flat(chunks) == []
  {
    if chunks != [] { FlatOfEmpty(chunks[1..]); }
  }

  function NonEmpty(chunks: seq<seq<Path>>): seq<seq<Path>> {
    if chunks == [] then []
    else (if chunks[0] == [] then [] else [chunks[0]]) + NonEmpty(chunks[1..])
  }

  lemma {:induction false} NonEmptyKeepsAll(chunks: seq<seq<Path>>)
    ensures Flat(NonEmpty(chunks)) == Flat(chunks)
    ensures forall w | 0 <= w < |NonEmpty(chunks)| :: NonEmpty(chunks)[w] != []
    ensures |NonEmpty(chunks)| <= |chunks| && forall c | c in NonEmpty(chunks) :: c in chunks
  {
    if chunks != [] {
      NonEmptyKeepsAll(chunks[1..]);
      var rest := NonEmpty(chunks[1..]);
      assert forall c | c in chunks[1..] :: c in chunks;
      if chunks[0] != [] {
        assert ([chunks[0]] + rest)[1..] == rest;
      } else {
        assert NonEmpty(chunks) == rest;
      }
    }
  }

  /** After `full` rounds and `rest` paths of the next one. */
  predicate EvenlyDealt(chunks: seq<seq<Path>>, full: nat, rest: nat) {
    forall w | 0 <= w < |chunks| :: |chunks[w]| == full + if w < rest then 1 else 0
  }

  lemma {:induction false} Remainder(full: nat, rest: nat, n: nat)
    requires rest < n
    ensures (full * n + rest) % n == rest
  {
    var i := full * n + rest;
    var q, r := i / n, i % n;
    assert i == q * n + r;
    if q < full {
      Multiples(q + 1, full, n);
    } else if q > full {
      Multiples(full + 1, q, n);
    }
  }

  lemma {:induction false} Multiples(a: nat, b: nat, n: nat)
    requires a <= b
    ensures a * n <= b * n
  {
  }

  lemma {:induction false} DealsEvenly(chunks: seq<seq<Path>>, full: nat, rest: nat, path: Path)
    requires rest < |chunks| && EvenlyDealt(chunks, full, rest)
    ensures var dealt := Deal(chunks, rest, path);
            if rest + 1 < |chunks| then EvenlyDealt(dealt, full, rest + 1) else EvenlyDealt(dealt, full + 1, 0)
  {
  }

  predicate Balanced(chunks: seq<seq<Path>>) {
    forall v, w | 0 <= v < |chunks| && 0 <= w < |chunks| :: |chunks[v]| <= |chunks[w]| + 1
  }

  lemma {:induction false} EvenIsBalanced(chunks: seq<seq<Path>>, full: nat, rest: nat)
    requires EvenlyDealt(chunks, full, rest)
    ensures Balanced(NonEmpty(chunks))
  {
    NonEmptyKeepsAll(chunks);
    var kept := NonEmpty(chunks);
    forall w | 0 <= w < |kept| ensures full <= |kept[w]| <= full + 1 {
      assert kept[w] in kept;
      var v :| 0 <= v < |chunks| && chunks[v] == kept[w];
    }
  }

  /** One path more of a round robin. */
  method DealOne(dealt: seq<seq<Path>>, i: nat, path: Path, ghost full: nat, ghost rest: nat)
    returns (r: seq<seq<Path>>, ghost full': nat, ghost rest': nat)
    requires rest < |dealt| && i == full * |dealt| + rest && EvenlyDealt(dealt, full, rest)
    ensures |r| == |dealt| && multiset(Flat(r)) == multiset(Flat(dealt)) + multiset{path}
    ensures rest' < |r| && i + 1 == full' * |r| + rest' && EvenlyDealt(r, full', rest')
  {
    Remainder(full, rest, |dealt|);
    DealsEvenly(dealt, full, rest, path);
    r := Deal(dealt, i % |dealt|, path);
    NextRound(full, |dealt|);
    full', rest' := if rest + 1 < |dealt| then full else full + 1, if rest + 1 < |dealt| then rest + 1 else 0;
  }

  /** Deals the paths round robin: every path is in exactly one chunk, no chunk is empty, and none has two
      paths more than another. */
  method ChunkPaths(paths: seq<Path>, jobs: nat) returns (chunks: seq<seq<Path>>)
    requires jobs >= 1
    ensures multiset(Flat(chunks)) == multiset(paths)
    ensures |chunks| <= jobs && forall w | 0 <= w < |chunks| :: chunks[w] != []
    ensures Balanced(chunks)
  {
    var dealt := seq(jobs, w => []);
    ghost var full: nat, rest: nat := 0, 0;
    FlatOfEmpty(dealt);
    for i := 0 to |paths|
      invariant |dealt| == jobs && multiset(Flat(dealt)) == multiset(paths[..i])
      invariant i == full * |dealt| + rest && rest < |dealt| && EvenlyDealt(dealt, full, rest)
    {
      dealt, full, rest := DealOne(dealt, i, paths[i], full, rest);
      assert paths[..i + 1] == paths[..i] + [paths[i]];
    }
    assert paths[..|paths|] == paths;
    NonEmptyKeepsAll(dealt);
    EvenIsBalanced(dealt, full, rest);
    chunks := NonEmpty(dealt);
  }

  lemma {:induction false} NextRound(full: nat, n: nat)
    ensures full * n + n == (full + 1) * n
  {
  }

  // The whole scan

  /** What one worker sends: the walks of its chunk, one child after the other. */
  function Stream(chunk: seq<Path>, walk: Path -> seq<Message>): seq<Message> {
    if chunk == [] then [] else walk(chunk[0]) + Stream(chunk[1..], walk)
  }

  function Streams(chunks: seq<seq<Path>>, walk: Path -> seq<Message>): seq<seq<Message>> {
    seq(|chunks|, w requires 0 <= w < |chunks| => Stream(chunks[w], walk))
  }

  lemma {:induction false} StreamOfBoth(a: seq<Path>, b: seq<Path>, walk: Path -> seq<Message>)
    ensures Stream(a + b, walk) == Stream(a, walk) + Stream(b, walk)
    decreases |a|
  {
    if a == [] {
      assert a + b == b;
    } else {
      StreamOfBoth(a[1..], b, walk);
      assert (a + b)[1..] == a[1..] + b && (a + b)[0] == a[0];
      AssociateMessages(walk(a[0]), Stream(a[1..], walk), Stream(b, walk));
    }
  }

  lemma {:induction false} AssociateMessages(a: seq<Message>, b: seq<Message>, c: seq<Message>)
    ensures a + (b + c) == (a + b) + c
  {
  }

  lemma {:induction false} StreamsTogether(chunks: seq<seq<Path>>, walk: Path -> seq<Message>)
    ensures Together(Streams(chunks, walk)) == multiset(Stream(Flat(chunks), walk))
  {
    if chunks != [] {
      StreamsTogether(chunks[1..], walk);
      StreamOfBoth(chunks[0], Flat(chunks[1..]), walk);
      assert Streams(chunks, walk)[1..] == Streams(chunks[1..], walk);
    }
  }

  lemma {:induction false} StreamMiddle(front: seq<Path>, p: Path, back: seq<Path>, walk: Path -> seq<Message>)
    ensures multiset(Stream(front + ([p] + back), walk)) == multiset(Stream(front + back, walk)) + multiset(walk(p))
  {
    StreamOfBoth(front, back, walk);
    StreamOfBoth(front, [p] + back, walk);
    assert ([p] + back)[1..] == back;
  }

  /** The same children in another order send the same messages. */
  lemma {:induction false} ChildOrderDoesNotMatter(a: seq<Path>, b: seq<Path>, walk: Path -> seq<Message>)
    requires multiset(a) == multiset(b)
    ensures multiset(Stream(a, walk)) == multiset(Stream(b, walk))
    decreases |a|
  {
    if a == [] {
      assert |b| == |multiset(b)| == 0;
    } else {
      var n := |a| - 1;
      assert a == a[..n] + ([a[n]] + []) && a == a[..n] + [a[n]] && a[..n] + [] == a[..n];
      var k := Locate(a[..n], a[n], b);
      ChildOrderDoesNotMatter(a[..n], b[..k] + b[k + 1..], walk);
      StreamMiddle(a[..n], a[n], [], walk);
      StreamMiddle(b[..k], a[n], b[k + 1..], walk);
    }
  }

  lemma {:induction false} RecordsMiddle(front: seq<Message>, m: Message, back: seq<Message>)
    ensures multiset(RecordsOf(front + ([m] + back))) == multiset(RecordsOf(front + back)) + multiset(RecordsOf([m]))
  {
    RecordsOfBoth(front, back);
    RecordsOfBoth(front, [m] + back);
    RecordsOfBoth([m], back);
    var a, b, c := RecordsOf(front), RecordsOf([m]), RecordsOf(back);
    assert multiset(a + (b + c)) == multiset(a) + multiset(b) + multiset(c);
    assert multiset(a + c) == multiset(a) + multiset(c);
  }

  lemma {:induction false} RecordsOfMultiset(a: seq<Message>, b: seq<Message>)
    requires multiset(a) == multiset(b)
    ensures multiset(RecordsOf(a)) == multiset(RecordsOf(b))
    decreases |a|
  {
    if a == [] {
      assert |b| == |multiset(b)| == 0;
    } else {
      var n := |a| - 1;
      assert a == a[..n] + ([a[n]] + []) && a == a[..n] + [a[n]] && a[..n] + [] == a[..n];
      var k := Locate(a[..n], a[n], b);
      RecordsOfMultiset(a[..n], b[..k] + b[k + 1..]);
      RecordsMiddle(a[..n], a[n], []);
      RecordsMiddle(b[..k], a[n], b[k + 1..]);
    }
  }

  lemma {:induction false} RecordsOfBoth(a: seq<Message>, b: seq<Message>)
    ensures RecordsOf(a + b) == RecordsOf(a) + RecordsOf(b)
    decreases |b|
  {
    if b == [] {
      assert a + b == a;
    } else {
      var n := |b| - 1;
      RecordsOfBoth(a, b[..n]);
      assert (a + b)[..|a + b| - 1] == a + b[..n];
    }
  }

  /** For every two job counts, ways of listing the children and interleavings of the workers, each
      directory gets the same totals. */
  lemma {:induction false} ScanIgnoresSchedule(root: Path, own: seq<Record>, walk: Path -> seq<Message>,
                            chunks: seq<seq<Path>>, others: seq<seq<Path>>,
                            arrived: seq<Message>, instead: seq<Message>, d: Path)
    requires multiset(Flat(chunks)) == multiset(Flat(others))
    requires Interleaves(Streams(chunks, walk), arrived) && Interleaves(Streams(others, walk), instead)
    ensures Folded(root, own + RecordsOf(arrived), d) == Folded(root, own + RecordsOf(instead), d)
  {
    NothingIsLost(Streams(chunks, walk), arrived);
    NothingIsLost(Streams(others, walk), instead);
    StreamsTogether(chunks, walk);
    StreamsTogether(others, walk);
    ChildOrderDoesNotMatter(Flat(chunks), Flat(others), walk);
    RecordsOfMultiset(arrived, instead);
    OrderDoesNotMatter(root, own + RecordsOf(arrived), own + RecordsOf(instead), d);
  }

  /** `scan_path`: the root's own record, then whatever arrives from the workers. */
  method ScanPath(root: Path, own: Option<Record>, messages: seq<Message>, inserted: seq<bool>)
    returns (scan: Scan, totalAllocated: nat, ghost records: seq<Record>)
    requires |messages| == |inserted|
    ensures scan.Valid() && scan.root == root && scan.records == records
    ensures records == (if own.Some? then [own.value] else []) + RecordsOf(messages)
    ensures totalAllocated == Least(0xffff_ffff_ffff_ffff, Allocated(records, root))
    ensures scan.entries + scan.errors == 1 + |messages|
    ensures scan.entries == Inserted(messages, inserted) + if own.Some? then 1 else 0
  {
    scan := new Scan(root);
    if own.Some? {
      scan.AggregateRecord(own.value);
      scan.entries := 1;
    } else {
      scan.errors := 1;
    }
    scan.Receive(messages, inserted);
    records := scan.records;
    TotalsExist(root, records, root);
    TotalsAreSubtreeSums(root, records, root);
    totalAllocated := scan.aggregations[root].onDisk;
  }
}
