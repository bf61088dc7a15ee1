/** The file system the commands act on: a finite map from paths to nodes in which every path's
    ancestors are directories.  Only the operations the commands use are modelled. */
module FileSystem {
  import opened Base

  datatype Inode = Inode(dev: nat, number: nat)

  datatype Kind =
    | File(data: Bytes)
    | Dir
    | Symlink(target: Bytes)
    | Other(length: nat)

  datatype Node = Node(ino: Inode, kind: Kind)

  type Fs = map<Path, Node>

  /** A payload seen from its own root: relative path to node. */
  type Tree = map<Path, Node>

  predicate IsDir(fs: Fs, p: Path) {
    p in fs && fs[p].kind.Dir?
  }

  ghost predicate WellFormed(fs: Fs) {
    IsDir(fs, []) && forall p | p in fs && p != [] :: IsDir(fs, Parent(p))
  }

  /** The places of the entries at or below `p`, relative to `p`. */
  function Places(fs: Fs, p: Path): set<Path> {
    set q | q in fs && p <= q :: q[|p|..]
  }

  lemma {:induction false} PlacesOf(fs: Fs, p: Path)
    ensures forall s :: s in Places(fs, p) <==> p + s in fs
  {
    forall s ensures s in Places(fs, p) <==> p + s in fs {
      if p + s in fs {
        assert (p + s)[|p|..] == s && p <= p + s;
      }
      if s in Places(fs, p) {
        var q :| q in fs && p <= q && q[|p|..] == s;
        SplitAt(p, q);
      }
    }
  }

  /** The payload stored at `p`. */
  function TreeAt(fs: Fs, p: Path): Tree {
    PlacesOf(fs, p);
    map s | s in Places(fs, p) :: fs[p + s]
  }

  lemma {:induction false} TreeAtContents(fs: Fs, p: Path)
    ensures forall s :: s in TreeAt(fs, p) <==> p + s in fs
    ensures forall s | s in TreeAt(fs, p) :: TreeAt(fs, p)[s] == fs[p + s]
  {
    PlacesOf(fs, p);
  }

  lemma {:induction false} AncestorIsDir(fs: Fs, p: Path, q: Path)
    requires WellFormed(fs) && q in fs && p <= q && p != q
    ensures IsDir(fs, p)
    decreases |q|
  {
    assert p <= Parent(q);
    if p != Parent(q) {
      AncestorIsDir(fs, p, Parent(q));
    }
  }

  lemma {:induction false} AbsentBelowAbsent(fs: Fs, p: Path, q: Path)
    requires WellFormed(fs) && p !in fs && p <= q
    ensures q !in fs
  {
    if q in fs {
      AncestorIsDir(fs, p, q);
    }
  }

  /** What lies at or below `p` is the same in both file systems. */
  ghost predicate SameBelow(fs: Fs, fs': Fs, p: Path) {
    forall q | p <= q :: (q in fs <==> q in fs') && (q in fs ==> fs[q] == fs'[q])
  }

  lemma {:induction false} SameTree(fs: Fs, fs': Fs, p: Path)
    requires SameBelow(fs, fs', p)
    ensures TreeAt(fs, p) == TreeAt(fs', p)
    ensures p in fs <==> p in fs'
  {
    TreeAtContents(fs, p);
    TreeAtContents(fs', p);
    assert forall s :: p <= p + s;
    assert p <= p;
  }

  /** The entry made by one `mkdir` or by creating a file. */
  function Create(fs: Fs, p: Path, node: Node): Fs {
    fs[p := node]
  }

  lemma {:induction false} CreateKeeps(fs: Fs, p: Path, node: Node, q: Path)
    requires WellFormed(fs) && p != [] && IsDir(fs, Parent(p))
    requires p !in fs || (!IsDir(fs, p) && !node.kind.Dir?)
    ensures WellFormed(Create(fs, p, node))
    ensures !(q <= p) ==> SameBelow(fs, Create(fs, p, node), q)
  {
  }

  /** The shallowest prefix of `p` that does not exist yet: the next directory `create_dir_all` makes. */
  function FirstMissing(fs: Fs, p: Path): (m: Path)
    requires [] in fs && p !in fs
    ensures m <= p && m != [] && m !in fs && Parent(m) in fs
    decreases |p|
  {
    if Parent(p) in fs then p else FirstMissing(fs, Parent(p))
  }

  /** The nearest ancestor of `p` that exists, `p` included. */
  function NearestExisting(fs: Fs, p: Path): (a: Path)
    requires [] in fs
    ensures a <= p && a in fs
    decreases |p|
  {
    if p in fs then p else NearestExisting(fs, Parent(p))
  }

  /** The place `q`'s content comes from when the payload of `src` is moved to `dst`. */
  function Source(src: Path, dst: Path, q: Path): Path {
    if dst <= q then src + q[|dst|..] else q
  }

  /** `fs'` is `fs` with the payload of `src` at `dst`, in place of whatever `dst` held. */
  ghost predicate Moved(fs: Fs, fs': Fs, src: Path, dst: Path) {
    && (forall q :: q in fs' <==> ((dst <= q || !(src <= q)) && Source(src, dst, q) in fs))
    && (forall q | q in fs' :: Source(src, dst, q) in fs && fs'[q] == fs[Source(src, dst, q)])
  }

  function Move(fs: Fs, src: Path, dst: Path): (fs': Fs)
    ensures Moved(fs, fs', src, dst)
  {
    var kept := set q | q in fs && !(src <= q) && !(dst <= q);
    var moved := set q | q in fs && src <= q :: dst + q[|src|..];
    assert forall q | q in moved :: dst <= q && Source(src, dst, q) in fs by {
      forall q | q in moved ensures dst <= q && Source(src, dst, q) in fs {
        var o :| o in fs && src <= o && q == dst + o[|src|..];
        assert q[|dst|..] == o[|src|..];
        SplitAt(src, o);
      }
    }
    assert forall q | dst <= q && Source(src, dst, q) in fs :: q in moved by {
      forall q | dst <= q && Source(src, dst, q) in fs ensures q in moved {
        var o := Source(src, dst, q);
        assert src <= o && o[|src|..] == q[|dst|..];
        SplitAt(dst, q);
      }
    }
    map q | q in kept + moved :: fs[Source(src, dst, q)]
  }

  lemma {:induction false} MovedTree(fs: Fs, fs': Fs, src: Path, dst: Path)
    requires Moved(fs, fs', src, dst) && !Overlap(src, dst)
    ensures TreeAt(fs', dst) == TreeAt(fs, src)
    ensures src !in fs'
    ensures src in fs ==> dst in fs'
  {
    assert src <= src && dst + [] == dst && src + [] == src;
    assert Source(src, dst, dst) == src;
    TreeAtContents(fs, src);
    TreeAtContents(fs', dst);
    forall s ensures s in TreeAt(fs', dst) <==> s in TreeAt(fs, src) {
      assert dst <= dst + s && (dst + s)[|dst|..] == s;
      assert Source(src, dst, dst + s) == src + s;
    }
    forall s | s in TreeAt(fs, src) ensures TreeAt(fs', dst)[s] == TreeAt(fs, src)[s] {
      assert dst <= dst + s && (dst + s)[|dst|..] == s;
      assert Source(src, dst, dst + s) == src + s;
    }
  }

  lemma {:induction false} MovedElsewhere(fs: Fs, fs': Fs, src: Path, dst: Path, p: Path)
    requires Moved(fs, fs', src, dst) && !Overlap(src, p) && !Overlap(dst, p)
    ensures SameBelow(fs, fs', p)
  {
    forall q | p <= q ensures (q in fs <==> q in fs') && (q in fs ==> fs[q] == fs'[q]) {
      if src <= q { PrefixesOverlap(src, p, q); }
      if dst <= q { PrefixesOverlap(dst, p, q); }
      assert Source(src, dst, q) == q;
    }
  }

  lemma {:induction false} MovedWellFormed(fs: Fs, fs': Fs, src: Path, dst: Path)
    requires Moved(fs, fs', src, dst) && WellFormed(fs) && !Overlap(src, dst)
    requires src in fs && IsDir(fs, Parent(dst))
    ensures WellFormed(fs')
  {
    assert Source(src, dst, []) == [];
    forall p | p in fs' && p != [] ensures IsDir(fs', Parent(p)) {
      var up := Parent(p);
      assert up <= p;
      if p == dst {
        assert !(dst <= up) && !(src <= up);
        assert Source(src, dst, up) == up;
        assert up in fs';
      } else if dst <= p {
        SplitAt(dst, p);
        var s := p[|dst|..];
        assert dst <= up && up[|dst|..] == Parent(s);
        assert Parent(Source(src, dst, p)) == Source(src, dst, up);
        assert up in fs';
      } else {
        assert !(dst <= up);
        assert !(src <= up);
        assert Source(src, dst, p) == p && Source(src, dst, up) == up;
        assert up in fs';
      }
    }
  }

  /** No entry is lost: each goes to its own place, and keeps its node. */
  ghost predicate KeepsAll(fs: Fs, fs': Fs, where: map<Path, Path>) {
    && where.Keys == fs.Keys
    && (forall p | p in fs :: where[p] in fs' && fs'[where[p]] == fs[p])
    && (forall p, q | p in fs && q in fs && where[p] == where[q] :: p == q)
  }

  /** Where a move takes every entry. */
  function MoveMap(fs: Fs, src: Path, dst: Path): map<Path, Path> {
    map p | p in fs :: Source(dst, src, p)
  }

  lemma {:induction false} MovedKeepsAll(fs: Fs, fs': Fs, src: Path, dst: Path)
    requires Moved(fs, fs', src, dst) && WellFormed(fs) && !Overlap(src, dst) && dst !in fs
    ensures KeepsAll(fs, fs', MoveMap(fs, src, dst))
  {
    forall p | p in fs ensures Source(src, dst, Source(dst, src, p)) == p && !(dst <= p)
      ensures Source(dst, src, p) in fs' && fs'[Source(dst, src, p)] == fs[p]
    {
      if dst <= p { AbsentBelowAbsent(fs, dst, p); }
      var to := Source(dst, src, p);
      if src <= p {
        SplitAt(src, p);
        assert dst <= to && to[|dst|..] == p[|src|..];
      }
      assert Source(src, dst, to) == p;
    }
  }

  lemma {:induction false} KeepsAllTransitive(a: Fs, b: Fs, c: Fs, ab: map<Path, Path>, bc: map<Path, Path>)
    requires KeepsAll(a, b, ab) && KeepsAll(b, c, bc)
    ensures forall p | p in a :: p in ab && ab[p] in bc
    ensures KeepsAll(a, c, map p | p in a && p in ab && ab[p] in bc :: bc[ab[p]])
  {
  }

  /** `rename(2)`: replaces a file by a file and an empty directory by a directory. */
  function Rename(fs: Fs, src: Path, dst: Path): Option<Fs> {
    if src !in fs || Overlap(src, dst) || dst == [] || !IsDir(fs, Parent(dst)) then None
    else if dst !in fs then Some(Move(fs, src, dst))
    else if IsDir(fs, src) != IsDir(fs, dst) || exists q :: q in fs && dst <= q && q != dst then None
    else Some(Move(fs, src, dst))
  }

  /** When a rename goes through, and that it moves the payload then. */
  lemma {:induction false} RenameGoesThrough(fs: Fs, src: Path, dst: Path)
    ensures Rename(fs, src, dst).Some? <==>
            && src in fs && !(src <= dst) && !(dst <= src) && dst != [] && IsDir(fs, Parent(dst))
            && (dst in fs ==> (fs[src].kind.Dir? <==> fs[dst].kind.Dir?) && forall q | q in fs && dst <= q :: q == dst)
    ensures Rename(fs, src, dst).Some? ==> Moved(fs, Rename(fs, src, dst).value, src, dst)
    ensures RenameNoReplace(fs, src, dst) == if dst in fs then None else Rename(fs, src, dst)
  {
  }

  /** `renameat2(RENAME_NOREPLACE)`: an existing destination is an error. */
  function RenameNoReplace(fs: Fs, src: Path, dst: Path): Option<Fs> {
    if dst in fs then None else Rename(fs, src, dst)
  }

  /** One round of `create_dir_all`: the target is there, cannot be made, or one more level of it is made. */
  datatype Progress = Ready | Blocked | Made(fs: Fs)

  function MakeDirs(fs: Fs, target: Path, ino: Inode): Progress {
    if IsDir(fs, target) then Ready
    else if [] !in fs || target in fs || !IsDir(fs, NearestExisting(fs, target)) then Blocked
    else Made(Create(fs, FirstMissing(fs, target), Node(ino, Dir)))
  }

  lemma {:induction false} MakeDirsOnlyAdds(fs: Fs, target: Path, ino: Inode, p: Path)
    requires WellFormed(fs) && MakeDirs(fs, target, ino).Made?
    ensures WellFormed(MakeDirs(fs, target, ino).fs)
    ensures !(p <= target) ==> SameBelow(fs, MakeDirs(fs, target, ino).fs, p)
    ensures fs.Keys <= MakeDirs(fs, target, ino).fs.Keys
    ensures forall q | q in fs :: MakeDirs(fs, target, ino).fs[q] == fs[q]
  {
    var m := FirstMissing(fs, target);
    FirstMissingIsBelowNearest(fs, target);
    CreateKeeps(fs, m, Node(ino, Dir), p);
    assert p <= m ==> p <= target;
  }

  lemma {:induction false} FirstMissingIsBelowNearest(fs: Fs, p: Path)
    requires [] in fs && p !in fs
    ensures Parent(FirstMissing(fs, p)) == NearestExisting(fs, p)
    decreases |p|
  {
    if Parent(p) !in fs { FirstMissingIsBelowNearest(fs, Parent(p)); }
  }
}
