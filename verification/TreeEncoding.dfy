/** The byte stream that identifies a payload tree, and what the streaming hasher makes of it. */
module TreeEncoding {
  import opened Base
  import opened Order
  import opened Encoding
  import opened FileSystem

  /** A payload as it is read: a file in the parts its reads return, a directory in the order of its listing. */
  datatype Payload =
    | FileNode(parts: seq<Bytes>)
    | DirNode(listing: seq<Named>)
    | LinkNode(target: Bytes)
    | OtherNode(length: nat)

  datatype Named = Named(name: Bytes, payload: Payload)

  function Flat(chunks: seq<Bytes>): Bytes {
    if chunks == [] then [] else Flat(chunks[..|chunks| - 1]) + chunks[|chunks| - 1]
  }

  function KindOf(t: Payload): Kind {
    match t
    case FileNode(parts) => File(Flat(parts))
    case DirNode(_) => Dir
    case LinkNode(target) => Symlink(target)
    case OtherNode(length) => Other(length)
  }

  const SLASH: byte := 47

  predicate PlainName(name: Bytes) {
    name != [] && SLASH !in name
  }

  /** Names are what a file system allows, and distinct within a directory. */
  predicate WellNamed(t: Payload) {
    t.DirNode? ==>
      && (forall i | 0 <= i < |t.listing| :: PlainName(t.listing[i].name) && WellNamed(t.listing[i].payload))
      && (forall i, j | 0 <= i < j < |t.listing| :: t.listing[i].name != t.listing[j].name)
  }

  /** What is at a place of the tree. */
  ghost function At(t: Payload, p: Path): Option<Kind>
    decreases |p|
  {
    if p == [] then Some(KindOf(t))
    else if t.DirNode? && exists c :: c in t.listing && c.name == p[0] then
      var c :| c in t.listing && c.name == p[0];
      At(c.payload, p[1..])
    else None
  }

  lemma {:induction false} AtChild(t: Payload, c: Named, p: Path)
    requires t.DirNode? && WellNamed(t) && c in t.listing
    ensures At(t, [c.name] + p) == At(c.payload, p)
  {
    var q := [c.name] + p;
    assert q[0] == c.name && q[1..] == p;
    forall d | d in t.listing && d.name == c.name ensures d == c {
      var i :| 0 <= i < |t.listing| && t.listing[i] == d;
      var j :| 0 <= j < |t.listing| && t.listing[j] == c;
    }
  }

  // The order of the visit

  predicate NameOrder(a: Named, b: Named) {
    TextLe(a.name, b.name)
  }

  lemma {:induction false} NameOrderIsTotal()
    ensures TotalOrder(NameOrder)
  {
    forall a: Named, b: Named ensures NameOrder(a, b) || NameOrder(b, a) {
      TextLeTotal(a.name, b.name);
    }
    forall a: Named, b: Named, c: Named | NameOrder(a, b) && NameOrder(b, c) ensures NameOrder(a, c) {
      TextLeTransitive(a.name, b.name, c.name);
    }
  }

  /** The children of a directory, by name. */
  function Children(t: Payload): (cs: seq<Named>)
    requires t.DirNode?
    ensures forall c :: c in cs <==> c in t.listing
  {
    var cs := SortBy(NameOrder, t.listing);
    assert forall c :: c in cs <==> c in multiset(cs);
    cs
  }

  lemma {:induction false} ChildrenAscend(t: Payload)
    requires t.DirNode? && WellNamed(t)
    ensures var cs := Children(t);
            forall i, j | 0 <= i < j < |cs| :: TextLe(cs[i].name, cs[j].name) && cs[i].name != cs[j].name
  {
    NameOrderIsTotal();
    SortBySorts(NameOrder, t.listing);
    var cs := Children(t);
    forall i, j | 0 <= i < j < |cs| ensures NameOrder(cs[i], cs[j]) && cs[i].name != cs[j].name {
      DistinctStay(t.listing, cs, i, j);
    }
  }

  lemma {:induction false} DistinctStay(a: seq<Named>, b: seq<Named>, i: nat, j: nat)
    requires multiset(a) == multiset(b) && i < j < |b|
    requires forall k, l | 0 <= k < l < |a| :: a[k].name != a[l].name
    ensures b[i].name != b[j].name
  {
    if b[i].name == b[j].name {
      assert b[i] in multiset(b) && b[j] in multiset(b);
      OccursOnce(a, b[i], b[j]);
      OccursTwice(b, i, j);
    }
  }

  lemma {:induction false} OccursOnce(a: seq<Named>, x: Named, y: Named)
    requires x in a && y in a && x.name == y.name
    requires forall k, l | 0 <= k < l < |a| :: a[k].name != a[l].name
    ensures x == y && multiset(a)[x] == 1
  {
    var k :| 0 <= k < |a| && a[k] == x;
    var l :| 0 <= l < |a| && a[l] == y;
    assert k == l;
    assert a == a[..k] + [x] + a[k + 1..];
    assert x !in a[..k] && x !in a[k + 1..];
  }

  lemma {:induction false} OccursTwice(b: seq<Named>, i: nat, j: nat)
    requires i < j < |b| && b[i] == b[j]
    ensures multiset(b)[b[i]] >= 2
  {
    assert b == b[..j] + b[j..];
    assert b[..j][i] in multiset(b[..j]) && b[j..][0] in multiset(b[j..]);
  }

  // The stream, entry by entry

  datatype Item = Item(path: Path, kind: Kind)

  function Concat<T>(lists: seq<seq<T>>): seq<T> {
    if lists == [] then [] else lists[0] + Concat(lists[1..])
  }

  /** The entries in the order of the visit: a directory before its children, those by name. */
  function Items(t: Payload, relative: Path): seq<Item>
    decreases t, 2
  {
    [Item(relative, KindOf(t))] + if t.DirNode? then Concat(ItemLists(t, relative)) else []
  }

  function ItemLists(t: Payload, relative: Path): (lists: seq<seq<Item>>)
    requires t.DirNode?
    ensures |lists| == |Children(t)|
    decreases t, 1
  {
    var cs := Children(t);
    seq(|cs|, i requires 0 <= i < |cs| => ChildItems(t, cs[i], relative))
  }

  function ChildItems(t: Payload, c: Named, relative: Path): seq<Item>
    requires t.DirNode? && c in t.listing
    decreases t, 0
  {
    Items(c.payload, relative + [c.name])
  }

  lemma {:induction false} InConcat(lists: seq<seq<Item>>, x: Item)
    ensures x in Concat(lists) <==> exists i :: 0 <= i < |lists| && x in lists[i]
  {
    if lists != [] {
      InConcat(lists[1..], x);
      assert forall i | 0 < i < |lists| :: lists[i] == lists[1..][i - 1];
    }
  }

  /** The entries are exactly the places of the tree with what is there. */
  lemma {:induction false} ItemsAreContents(t: Payload, relative: Path, x: Item)
    requires WellNamed(t)
    ensures x in Items(t, relative) <==> relative <= x.path && At(t, x.path[|relative|..]) == Some(x.kind)
    decreases t
  {
    if t.DirNode? {
      var cs := Children(t);
      InConcat(ItemLists(t, relative), x);
      forall i | 0 <= i < |cs|
        ensures x in ItemLists(t, relative)[i] <==>
                  relative + [cs[i].name] <= x.path && At(cs[i].payload, x.path[|relative| + 1..]) == Some(x.kind)
      {
        assert cs[i] in t.listing;
        ItemsAreContents(cs[i].payload, relative + [cs[i].name], x);
      }
      ContentsOfChildren(t, relative, x);
    }
    if relative <= x.path && x.path != relative {
      assert x.path[|relative|..] != [];
    }
  }

  lemma {:induction false} SplitBelow(relative: Path, name: Bytes, p: Path)
    ensures relative + [name] <= p <==> relative <= p && p != relative && p[|relative|] == name
    ensures relative + [name] <= p ==> p[|relative|..] == [name] + p[|relative| + 1..]
  {
    if relative + [name] <= p {
      assert p[|relative|] == (relative + [name])[|relative|];
      assert relative == p[..|relative|];
    }
    if relative <= p && p != relative && p[|relative|] == name {
      assert p[..|relative| + 1] == relative + [name];
    }
  }

  lemma {:induction false} ChildHas(t: Payload, c: Named, relative: Path, x: Item)
    requires t.DirNode? && WellNamed(t) && c in t.listing && relative + [c.name] <= x.path
    ensures relative <= x.path && x.path != relative
    ensures At(t, x.path[|relative|..]) == At(c.payload, x.path[|relative| + 1..])
  {
    SplitBelow(relative, c.name, x.path);
    AtChild(t, c, x.path[|relative| + 1..]);
  }

  lemma {:induction false} ContentsOfChildren(t: Payload, relative: Path, x: Item)
    requires t.DirNode? && WellNamed(t)
    ensures (relative <= x.path && x.path != relative && At(t, x.path[|relative|..]) == Some(x.kind)) <==>
              exists i :: 0 <= i < |Children(t)| && relative + [Children(t)[i].name] <= x.path
                && At(Children(t)[i].payload, x.path[|relative| + 1..]) == Some(x.kind)
  {
    var cs := Children(t);
    forall i | 0 <= i < |cs| && relative + [cs[i].name] <= x.path
      ensures relative <= x.path && x.path != relative
      ensures At(t, x.path[|relative|..]) == At(cs[i].payload, x.path[|relative| + 1..])
    {
      ChildHas(t, cs[i], relative, x);
    }
    if relative <= x.path && x.path != relative && At(t, x.path[|relative|..]) == Some(x.kind) {
      var p := x.path[|relative|..];
      var c :| c in t.listing && c.name == p[0];
      var i :| 0 <= i < |cs| && cs[i] == c;
      SplitBelow(relative, c.name, x.path);
      ChildHas(t, cs[i], relative, x);
    }
  }

  // The visit is in path order

  predicate Earlier(a: Item, b: Item) {
    PathLe(a.path, b.path) && a.path != b.path
  }

  predicate InOrder(items: seq<Item>) {
    forall i, j | 0 <= i < j < |items| :: Earlier(items[i], items[j])
  }

  lemma {:induction false} PrefixComesFirst(p: Path, q: Path)
    requires p <= q
    ensures PathLe(p, q)
  {
    if p != [] { PrefixComesFirst(p[1..], q[1..]); }
  }

  /** Below two children of one directory, the names decide. */
  lemma {:induction false} NamesDecide(relative: Path, a: Bytes, b: Bytes, p: Path, q: Path)
    requires TextLe(a, b) && a != b && relative + [a] <= p && relative + [b] <= q
    ensures PathLe(p, q) && p != q
    decreases |relative|
  {
    SplitBelow(relative, a, p);
    SplitBelow(relative, b, q);
    if relative != [] {
      assert relative[1..] + [a] == (relative + [a])[1..] && relative[1..] + [b] == (relative + [b])[1..];
      NamesDecide(relative[1..], a, b, p[1..], q[1..]);
    }
  }

  ghost predicate ListsInOrder(lists: seq<seq<Item>>) {
    && (forall i | 0 <= i < |lists| :: InOrder(lists[i]))
    && (forall i: int, j: int, x: Item, y: Item | 0 <= i < j < |lists| && x in lists[i] && y in lists[j] ::
          Earlier(x, y))
  }

  lemma {:induction false} ConcatInOrder(lists: seq<seq<Item>>)
    requires ListsInOrder(lists)
    ensures InOrder(Concat(lists))
  {
    if lists != [] {
      var head, rest := lists[0], Concat(lists[1..]);
      ConcatInOrder(lists[1..]);
      forall i, j | 0 <= i < |head| && 0 <= j < |rest| ensures Earlier(head[i], rest[j]) {
        InConcat(lists[1..], rest[j]);
        var k :| 0 <= k < |lists[1..]| && rest[j] in lists[1..][k];
        assert lists[k + 1] == lists[1..][k] && head[i] in lists[0];
      }
      var all := head + rest;
      forall i, j | 0 <= i < j < |all| ensures Earlier(all[i], all[j]) {
        if j >= |head| && i >= |head| {
          assert Earlier(rest[i - |head|], rest[j - |head|]);
        }
      }
    }
  }

  lemma {:induction false} ListOfChild(t: Payload, relative: Path, i: nat)
    requires t.DirNode? && i < |Children(t)|
    ensures Children(t)[i] in t.listing
    ensures ItemLists(t, relative)[i] == Items(Children(t)[i].payload, relative + [Children(t)[i].name])
  {
    assert Children(t)[i] in Children(t);
  }

  lemma {:induction false} ListIsBelow(t: Payload, relative: Path, i: nat, x: Item)
    requires WellNamed(t) && t.DirNode? && i < |Children(t)| && x in ItemLists(t, relative)[i]
    ensures relative + [Children(t)[i].name] <= x.path
  {
    ListOfChild(t, relative, i);
    ItemsAreContents(Children(t)[i].payload, relative + [Children(t)[i].name], x);
  }

  lemma {:induction false} ChildListsInOrder(t: Payload, relative: Path)
    requires WellNamed(t) && t.DirNode?
    ensures ListsInOrder(ItemLists(t, relative))
    decreases t, 0
  {
    var cs, lists := Children(t), ItemLists(t, relative);
    forall i | 0 <= i < |cs| ensures InOrder(lists[i]) {
      ListOfChild(t, relative, i);
      ItemsInOrder(cs[i].payload, relative + [cs[i].name]);
    }
    ChildrenAscend(t);
    forall i: int, j: int, x: Item, y: Item | 0 <= i < j < |lists| && x in lists[i] && y in lists[j]
      ensures Earlier(x, y)
    {
      ListIsBelow(t, relative, i, x);
      ListIsBelow(t, relative, j, y);
      NamesDecide(relative, cs[i].name, cs[j].name, x.path, y.path);
    }
  }

  lemma {:induction false} ItemsInOrder(t: Payload, relative: Path)
    requires WellNamed(t)
    ensures InOrder(Items(t, relative))
    decreases t, 1
  {
    if t.DirNode? {
      var lists := ItemLists(t, relative);
      var rest := Concat(lists);
      ChildListsInOrder(t, relative);
      ConcatInOrder(lists);
      forall j | 0 <= j < |rest| ensures Earlier(Item(relative, KindOf(t)), rest[j]) {
        InConcat(lists, rest[j]);
        var i :| 0 <= i < |lists| && rest[j] in lists[i];
        ListIsBelow(t, relative, i, rest[j]);
        SplitBelow(relative, Children(t)[i].name, rest[j].path);
        PrefixComesFirst(relative, rest[j].path);
      }
    }
  }

  /** Entries in path order are determined by what they are. */
  lemma {:induction false} InOrderIsUnique(a: seq<Item>, b: seq<Item>)
    requires InOrder(a) && InOrder(b) && forall x :: x in a <==> x in b
    ensures a == b
  {
    assert b != [] ==> b[0] in b;
    if a != [] {
      assert a[0] in a && b != [] && a[0] in b && b[0] in a;
      if a[0] != b[0] {
        assert Earlier(a[0], b[0]) && Earlier(b[0], a[0]);
        PathLeTotal(a[0].path, b[0].path);
      }
      forall x ensures x in a[1..] <==> x in b[1..] {
        assert x in a <==> x == a[0] || x in a[1..];
        assert x in b <==> x == b[0] || x in b[1..];
        assert a[0] !in a[1..] && b[0] !in b[1..];
      }
      InOrderIsUnique(a[1..], b[1..]);
    }
  }

  /** Two trees with the same contents, whatever the order of their listings. */
  ghost predicate SameContents(t: Payload, u: Payload) {
    forall p :: At(t, p) == At(u, p)
  }

  lemma {:induction false} SameContentsSameItems(t: Payload, u: Payload)
    requires WellNamed(t) && WellNamed(u)
    ensures Items(t, []) == Items(u, []) <==> SameContents(t, u)
  {
    ItemsInOrder(t, []);
    ItemsInOrder(u, []);
    forall x: Item ensures x in Items(t, []) <==> At(t, x.path) == Some(x.kind) {
      ItemsAreContents(t, [], x);
      assert x.path[0..] == x.path;
    }
    forall x: Item ensures x in Items(u, []) <==> At(u, x.path) == Some(x.kind) {
      ItemsAreContents(u, [], x);
      assert x.path[0..] == x.path;
    }
    if SameContents(t, u) {
      InOrderIsUnique(Items(t, []), Items(u, []));
    }
    if Items(t, []) == Items(u, []) {
      forall p ensures At(t, p) == At(u, p) {
        if At(t, p).Some? { assert Item(p, At(t, p).value) in Items(u, []); }
        if At(u, p).Some? { assert Item(p, At(u, p).value) in Items(t, []); }
      }
    }
  }

  // The bytes of an entry

  function Joined(p: Path): Bytes {
    if p == [] then [] else if |p| == 1 then p[0] else Joined(p[..|p| - 1]) + [SLASH] + p[|p| - 1]
  }

  const FILE: Bytes := [102, 105, 108, 101]
  const DIR: Bytes := [100, 105, 114]
  const SYMLINK: Bytes := [115, 121, 109, 108, 105, 110, 107]
  const OTHER: Bytes := [111, 116, 104, 101, 114]

  lemma {:induction false} KindsAreNamed()
    ensures [SLASH] == Text("/")
    ensures FILE == Text("file") && DIR == Text("dir") && SYMLINK == Text("symlink") && OTHER == Text("other")
  {
  }

  function KindText(k: Kind): Bytes {
    match k
    case File(_) => FILE
    case Dir => DIR
    case Symlink(_) => SYMLINK
    case Other(_) => OTHER
  }

  function Body(k: Kind): Bytes {
    match k
    case File(data) => Be64(|data|) + data
    case Dir => []
    case Symlink(target) => Frame(target)
    case Other(length) => Be64(length)
  }

  function EntryBytes(x: Item): Bytes {
    Frame(KindText(x.kind)) + (Frame(Joined(x.path)) + Body(x.kind))
  }

  function FlatMap<T>(f: Item -> seq<T>, items: seq<Item>): seq<T> {
    if items == [] then [] else f(items[0]) + FlatMap(f, items[1..])
  }

  function Stream(items: seq<Item>): Bytes {
    FlatMap(EntryBytes, items)
  }

  predicate PlainPath(p: Path) {
    forall i | 0 <= i < |p| :: PlainName(p[i])
  }

  lemma {:induction false} JoinedHasSlash(p: Path)
    requires PlainPath(p) && p != []
    ensures Joined(p) != [] && (SLASH in Joined(p) <==> |p| > 1)
  {
    assert PlainName(p[0]);
    if |p| > 1 {
      assert Joined(p)[|Joined(p[..|p| - 1])|] == SLASH;
    }
  }

  lemma {:induction false} LastSlash(a: Bytes, x: Bytes, b: Bytes, y: Bytes)
    requires SLASH !in x && SLASH !in y && a + [SLASH] + x == b + [SLASH] + y
    ensures a == b && x == y
  {
    var s, t := a + [SLASH] + x, b + [SLASH] + y;
    assert s[|a|] == SLASH && t[|b|] == SLASH;
    forall k | |a| < k < |s| ensures s[k] != SLASH {
      assert s[k] == x[k - |a| - 1];
    }
    forall k | |b| < k < |t| ensures t[k] != SLASH {
      assert t[k] == y[k - |b| - 1];
    }
    assert |a| == |b|;
    assert s[..|a|] == a && t[..|b|] == b;
    assert s[|a| + 1..] == x && t[|b| + 1..] == y;
  }

  /** Names without slashes can be told apart in the joined path. */
  lemma {:induction false} JoinedInjective(p: Path, q: Path)
    requires PlainPath(p) && PlainPath(q) && Joined(p) == Joined(q)
    ensures p == q
  {
    if p != [] { JoinedHasSlash(p); }
    if q != [] { JoinedHasSlash(q); }
    if |p| > 1 {
      var m, n := |p| - 1, |q| - 1;
      assert PlainName(p[m]) && PlainName(q[n]);
      LastSlash(Joined(p[..m]), p[m], Joined(q[..n]), q[n]);
      JoinedInjective(p[..m], q[..n]);
      assert p == p[..m] + [p[m]] && q == q[..n] + [q[n]];
    } else if p != [] {
      assert p == [p[0]] && q == [q[0]];
    }
  }

  /** What the machine can hold: lengths in 64 bits, names as a file system allows them. */
  predicate Representable(x: Item) {
    && PlainPath(x.path) && Addressable(Joined(x.path))
    && match x.kind
       case File(data) => Addressable(data)
       case Dir => true
       case Symlink(target) => Addressable(target)
       case Other(length) => length < TWO_64
  }

  lemma {:induction false} BodyIsPrefixFree(k: Kind, r: Bytes, l: Kind, s: Bytes)
    requires KindText(k) == KindText(l) && Body(k) + r == Body(l) + s
    requires Representable(Item([], k)) && Representable(Item([], l))
    ensures k == l && r == s
  {
    match k
    case File(data) =>
      assert l.File?;
      assert Frame(data) + r == Frame(l.data) + s;
      FrameIsPrefixFree(data, r, l.data, s);
    case Dir =>
      assert l.Dir? && [] + r == r && [] + s == s;
    case Symlink(target) =>
      assert l.Symlink?;
      FrameIsPrefixFree(target, r, l.target, s);
    case Other(length) =>
      assert l.Other?;
      var x, y := Be64(length) + r, Be64(l.length) + s;
      assert x[..8] == Be64(length) && y[..8] == Be64(l.length) && x[8..] == r && y[8..] == s;
      Be64Injective(length, l.length);
  }

  lemma {:induction false} TwoFrames(a: Bytes, b: Bytes, c: Bytes, r: Bytes, d: Bytes, e: Bytes, f: Bytes, s: Bytes)
    requires Addressable(a) && Addressable(b) && Addressable(d) && Addressable(e)
    requires Frame(a) + (Frame(b) + c) + r == Frame(d) + (Frame(e) + f) + s
    ensures a == d && b == e && c + r == f + s
  {
    assert Frame(a) + (Frame(b) + c) + r == Frame(a) + (Frame(b) + (c + r));
    assert Frame(d) + (Frame(e) + f) + s == Frame(d) + (Frame(e) + (f + s));
    FrameIsPrefixFree(a, Frame(b) + (c + r), d, Frame(e) + (f + s));
    FrameIsPrefixFree(b, c + r, e, f + s);
  }

  /** An entry can be told apart from what follows it. */
  lemma {:induction false} EntryIsPrefixFree(x: Item, r: Bytes, y: Item, s: Bytes)
    requires Representable(x) && Representable(y) && EntryBytes(x) + r == EntryBytes(y) + s
    ensures x == y && r == s
  {
    TwoFrames(KindText(x.kind), Joined(x.path), Body(x.kind), r, KindText(y.kind), Joined(y.path), Body(y.kind), s);
    JoinedInjective(x.path, y.path);
    BodyIsPrefixFree(x.kind, r, y.kind, s);
  }

  predicate AllRepresentable(items: seq<Item>) {
    forall i | 0 <= i < |items| :: Representable(items[i])
  }

  /** The stream is uniquely decodable. */
  lemma {:induction false} StreamInjective(a: seq<Item>, b: seq<Item>)
    requires AllRepresentable(a) && AllRepresentable(b) && Stream(a) == Stream(b)
    ensures a == b
  {
    if a != [] && b != [] {
      assert EntryBytes(a[0]) + Stream(a[1..]) == EntryBytes(b[0]) + Stream(b[1..]);
      EntryIsPrefixFree(a[0], Stream(a[1..]), b[0], Stream(b[1..]));
      StreamInjective(a[1..], b[1..]);
      assert a == [a[0]] + a[1..] && b == [b[0]] + b[1..];
    }
  }

  /** The identity stream: equal exactly for trees with the same kinds, names, contents and link targets
      (of other kinds, only the length), in whatever order their directories are listed. */
  lemma {:induction false} StreamIdentifiesTree(t: Payload, u: Payload)
    requires WellNamed(t) && WellNamed(u) && AllRepresentable(Items(t, [])) && AllRepresentable(Items(u, []))
    ensures Stream(Items(t, [])) == Stream(Items(u, [])) <==> SameContents(t, u)
  {
    SameContentsSameItems(t, u);
    if Stream(Items(t, [])) == Stream(Items(u, [])) {
      StreamInjective(Items(t, []), Items(u, []));
    }
  }
}
