/** The byte-wise order of names and texts, and strictly increasing sequences. */
module Order {
  import opened Base

  predicate TextLe(a: Bytes, b: Bytes) {
    if a == [] then true
    else if b == [] then false
    else a[0] < b[0] || (a[0] == b[0] && TextLe(a[1..], b[1..]))
  }

  lemma {:induction false} TextLeReflexive(a: Bytes)
    ensures TextLe(a, a)
  {
    if a != [] { TextLeReflexive(a[1..]); }
  }

  lemma {:induction false} TextLeAntisymmetric(a: Bytes, b: Bytes)
    requires TextLe(a, b) && TextLe(b, a)
    ensures a == b
  {
    if a != [] && b != [] {
      TextLeAntisymmetric(a[1..], b[1..]);
      assert a == [a[0]] + a[1..] && b == [b[0]] + b[1..];
    }
  }

  lemma {:induction false} TextLeTotal(a: Bytes, b: Bytes)
    ensures TextLe(a, b) || TextLe(b, a)
  {
    if a != [] && b != [] { TextLeTotal(a[1..], b[1..]); }
  }

  lemma {:induction false} TextLeTransitive(a: Bytes, b: Bytes, c: Bytes)
    requires TextLe(a, b) && TextLe(b, c)
    ensures TextLe(a, c)
  {
    if a != [] && b != [] && c != [] && a[0] == b[0] && b[0] == c[0] {
      TextLeTransitive(a[1..], b[1..], c[1..]);
    }
  }

  /** Two sequences agree before their place `k` and not at it. */
  predicate PartAt<T(==)>(a: seq<T>, b: seq<T>, k: nat) {
    k < |a| && k < |b| && a[..k] == b[..k] && a[k] != b[k]
  }

  lemma {:induction false} PartAtTails<T>(a: seq<T>, b: seq<T>, k: nat)
    requires a != [] && b != [] && a[0] == b[0]
    ensures PartAt(a, b, k + 1) <==> PartAt(a[1..], b[1..], k)
    ensures !PartAt(a, b, 0) && (a <= b <==> a[1..] <= b[1..])
  {
    assert a == [a[0]] + a[1..] && b == [b[0]] + b[1..];
    if k < |a| - 1 && k < |b| - 1 {
      assert a[..k + 1] == [a[0]] + a[1..][..k] && b[..k + 1] == [b[0]] + b[1..][..k];
      assert a[1..][..k] == a[..k + 1][1..] && b[1..][..k] == b[..k + 1][1..];
    }
  }

  lemma {:induction false} PartAtOnce<T>(a: seq<T>, b: seq<T>, k: nat)
    requires a != [] && b != [] && a[0] != b[0]
    ensures PartAt(a, b, k) <==> k == 0
    ensures !(a <= b)
  {
    if k > 0 && k <= |a| && k <= |b| { assert a[..k][0] == a[0] && b[..k][0] == b[0]; }
  }

  /** One text comes before another when it begins the other, or is smaller at the first place they differ. */
  lemma {:induction false} TextLeMeans(a: Bytes, b: Bytes)
    ensures TextLe(a, b) <==> a <= b || exists k: nat :: PartAt(a, b, k) && a[k] < b[k]
  {
    if a != [] && b != [] {
      if a[0] != b[0] {
        forall k: nat ensures PartAt(a, b, k) <==> k == 0 { PartAtOnce(a, b, k); }
      } else {
        TextLeMeans(a[1..], b[1..]);
        forall k: nat ensures PartAt(a, b, k + 1) <==> PartAt(a[1..], b[1..], k) { PartAtTails(a, b, k); }
        PartAtTails(a, b, 0);
        if k: nat :| PartAt(a, b, k) && a[k] < b[k] { assert PartAt(a[1..], b[1..], k - 1); }
        if k: nat :| PartAt(a[1..], b[1..], k) && a[1..][k] < b[1..][k] { assert PartAt(a, b, k + 1); }
      }
    }
  }

  // Sorted texts without repetition

  predicate Ascending(s: seq<Bytes>) {
    forall i, j | 0 <= i < j < |s| :: TextLe(s[i], s[j]) && s[i] != s[j]
  }

  function InsertText(t: Bytes, s: seq<Bytes>): seq<Bytes> {
    if s == [] then [t]
    else if t == s[0] then s
    else if TextLe(t, s[0]) then [t] + s
    else [s[0]] + InsertText(t, s[1..])
  }

  /** `sort` followed by `dedup`. */
  function Ascend(s: seq<Bytes>): seq<Bytes> {
    if s == [] then [] else InsertText(s[|s| - 1], Ascend(s[..|s| - 1]))
  }

  lemma {:induction false} InsertKeepsAscending(t: Bytes, s: seq<Bytes>)
    requires Ascending(s)
    ensures var r := InsertText(t, s);
            Ascending(r) && forall x :: x in r <==> x == t || x in s
  {
    if s != [] && t != s[0] {
      TextLeTotal(t, s[0]);
      if TextLe(t, s[0]) {
        forall j | 0 <= j < |s| ensures TextLe(t, s[j]) && t != s[j] {
          if j > 0 {
            TextLeTransitive(t, s[0], s[j]);
            if t == s[j] { TextLeAntisymmetric(s[0], s[j]); }
          }
        }
      } else {
        var r := InsertText(t, s[1..]);
        InsertKeepsAscending(t, s[1..]);
        forall j | 0 <= j < |r| ensures TextLe(s[0], r[j]) && s[0] != r[j] {
          assert r[j] == t || r[j] in s[1..];
        }
        assert s == [s[0]] + s[1..];
      }
    }
  }

  /** The result is sorted without repetition, and has exactly the given elements. */
  lemma {:induction false} AscendSorts(s: seq<Bytes>)
    ensures Ascending(Ascend(s)) && forall x :: x in Ascend(s) <==> x in s
  {
    if s != [] {
      var n := |s| - 1;
      AscendSorts(s[..n]);
      InsertKeepsAscending(s[n], Ascend(s[..n]));
      assert s == s[..n] + [s[n]];
    }
  }

  /** A sorted sequence without repetition is determined by its elements. */
  lemma {:induction false} AscendingIsUnique(a: seq<Bytes>, b: seq<Bytes>)
    requires Ascending(a) && Ascending(b) && forall x :: x in a <==> x in b
    ensures a == b
  {
    assert b != [] ==> b[0] in b;
    if a != [] {
      assert a[0] in a && b != [];
      if a[0] != b[0] {
        assert a[0] in b && b[0] in a;
        TextLeAntisymmetric(a[0], b[0]);
      }
      forall x ensures x in a[1..] <==> x in b[1..] {
        assert x in a <==> x == a[0] || x in a[1..];
        assert x in b <==> x == b[0] || x in b[1..];
        assert a[0] !in a[1..] && b[0] !in b[1..];
      }
      AscendingIsUnique(a[1..], b[1..]);
    }
  }

  /** Texts have the same sorted form exactly when they are the same as sets. */
  lemma {:induction false} AscendIgnoresOrder(a: seq<Bytes>, b: seq<Bytes>)
    ensures Ascend(a) == Ascend(b) <==> forall x :: x in a <==> x in b
  {
    AscendSorts(a);
    AscendSorts(b);
    if forall x :: x in a <==> x in b {
      AscendingIsUnique(Ascend(a), Ascend(b));
    } else {
      var x :| (x in a) != (x in b);
      assert (x in Ascend(a)) != (x in Ascend(b));
    }
  }

  // Paths, component by component

  predicate PathLe(p: Path, q: Path) {
    if p == [] then true
    else if q == [] then false
    else if p[0] != q[0] then TextLe(p[0], q[0])
    else PathLe(p[1..], q[1..])
  }

  lemma {:induction false} PathLeTotal(p: Path, q: Path)
    ensures PathLe(p, q) || PathLe(q, p)
    ensures PathLe(p, q) && PathLe(q, p) ==> p == q
  {
    if p != [] && q != [] {
      if p[0] != q[0] {
        TextLeTotal(p[0], q[0]);
        if TextLe(p[0], q[0]) && TextLe(q[0], p[0]) { TextLeAntisymmetric(p[0], q[0]); }
      } else {
        PathLeTotal(p[1..], q[1..]);
        assert p == [p[0]] + p[1..] && q == [q[0]] + q[1..];
      }
    }
  }

  lemma {:induction false} PathLeTransitive(p: Path, q: Path, r: Path)
    requires PathLe(p, q) && PathLe(q, r)
    ensures PathLe(p, r)
  {
    if p != [] && q != [] && r != [] {
      if p[0] == q[0] && q[0] == r[0] {
        PathLeTransitive(p[1..], q[1..], r[1..]);
      } else if p[0] != q[0] && q[0] != r[0] {
        TextLeTransitive(p[0], q[0], r[0]);
        if p[0] == r[0] { TextLeAntisymmetric(p[0], q[0]); }
      }
    }
  }

  /** Paths compare at the first component in which they differ. */
  lemma {:induction false} PathLeMeans(p: Path, q: Path)
    ensures PathLe(p, q) <==> p <= q || exists k: nat :: PartAt(p, q, k) && TextLe(p[k], q[k])
  {
    if p != [] && q != [] {
      if p[0] != q[0] {
        forall k: nat ensures PartAt(p, q, k) <==> k == 0 { PartAtOnce(p, q, k); }
      } else {
        PathLeMeans(p[1..], q[1..]);
        forall k: nat ensures PartAt(p, q, k + 1) <==> PartAt(p[1..], q[1..], k) { PartAtTails(p, q, k); }
        PartAtTails(p, q, 0);
        if k: nat :| PartAt(p, q, k) && TextLe(p[k], q[k]) { assert PartAt(p[1..], q[1..], k - 1); }
        if k: nat :| PartAt(p[1..], q[1..], k) && TextLe(p[1..][k], q[1..][k]) { assert PartAt(p, q, k + 1); }
      }
    }
  }

  // Sorting by a total order

  ghost predicate TotalOrder<T(!new)>(le: (T, T) -> bool) {
    && (forall a, b :: le(a, b) || le(b, a))
    && (forall a, b, c :: le(a, b) && le(b, c) ==> le(a, c))
  }

  predicate SortedBy<T>(le: (T, T) -> bool, s: seq<T>) {
    forall i, j | 0 <= i < j < |s| :: le(s[i], s[j])
  }

  function InsertBy<T>(le: (T, T) -> bool, x: T, s: seq<T>): (r: seq<T>)
    ensures multiset(r) == multiset(s) + multiset{x}
  {
    if s == [] then [x]
    else if le(x, s[0]) then [x] + s
    else
      assert s == [s[0]] + s[1..];
      [s[0]] + InsertBy(le, x, s[1..])
  }

  function SortBy<T>(le: (T, T) -> bool, s: seq<T>): (r: seq<T>)
    ensures multiset(r) == multiset(s)
  {
    if s == [] then []
    else
      assert s == [s[0]] + s[1..];
      InsertBy(le, s[0], SortBy(le, s[1..]))
  }

  lemma {:induction false} InsertBySorts<T(!new)>(le: (T, T) -> bool, x: T, s: seq<T>)
    requires TotalOrder(le) && SortedBy(le, s)
    ensures SortedBy(le, InsertBy(le, x, s))
  {
    if s != [] {
      if le(x, s[0]) {
        assert forall j | 0 <= j < |s| :: j == 0 || le(s[0], s[j]);
      } else {
        var r := InsertBy(le, x, s[1..]);
        InsertBySorts(le, x, s[1..]);
        forall j | 0 <= j < |r| ensures le(s[0], r[j]) {
          assert r[j] in multiset(r);
          assert r[j] == x || r[j] in s[1..];
        }
      }
    }
  }

  lemma {:induction false} SortBySorts<T(!new)>(le: (T, T) -> bool, s: seq<T>)
    requires TotalOrder(le)
    ensures SortedBy(le, SortBy(le, s))
  {
    if s != [] {
      SortBySorts(le, s[1..]);
      InsertBySorts(le, s[0], SortBy(le, s[1..]));
    }
  }
}
