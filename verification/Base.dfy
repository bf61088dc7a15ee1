/** Vocabulary shared by every component: optional values, byte strings and component paths. */
module Base {
  datatype Option<+T> = None | Some(value: T)

  /** The later of two times that may be missing. */
  function Later(a: Option<int>, b: Option<int>): Option<int> {
    if a.None? then b else if b.None? then a else if a.value < b.value then b else a
  }

  type byte = x: int | 0 <= x < 256

  type Bytes = seq<byte>

  /** The bytes of an ASCII literal. */
  function Text(s: string): (t: Bytes)
    ensures |t| == |s|
  {
    seq(|s|, i requires 0 <= i < |s| => s[i] as int % 256)
  }

  /** An absolute path, as the sequence of its components; the file-system root is `[]`.
      `root <= p` is the component-wise `Path::starts_with`. */
  type Path = seq<Bytes>

  function Parent(p: Path): Path
    requires p != []
  {
    p[..|p| - 1]
  }

  /** Two paths overlap when one contains the other. */
  predicate Overlap(p: Path, q: Path) {
    p <= q || q <= p
  }

  /** A prefix splits a path: what follows it is the path relative to it. */
  lemma {:induction false} SplitAt(p: Path, q: Path)
    requires p <= q
    ensures q == p + q[|p|..]
  {
  }

  /** Two prefixes of one path are comparable. */
  lemma {:induction false} PrefixesOverlap(p: Path, q: Path, r: Path)
    requires p <= r && q <= r
    ensures Overlap(p, q)
  {
    if |p| <= |q| {
      assert p == r[..|p|] && q == r[..|q|];
      assert p == q[..|p|];
    } else {
      assert q == p[..|q|];
    }
  }

  function Decimal(n: nat): Bytes {
    if n < 10 then [48 + n] else Decimal(n / 10) + [48 + n % 10]
  }

  /** Distinct numbers have distinct decimal texts. */
  lemma {:induction false} DecimalInjective(m: nat, n: nat)
    requires Decimal(m) == Decimal(n)
    ensures m == n
  {
    var d, e := Decimal(m), Decimal(n);
    assert d[|d| - 1] == 48 + m % 10 && e[|e| - 1] == 48 + n % 10;
    if m >= 10 && n >= 10 {
      assert d[..|d| - 1] == Decimal(m / 10) && e[..|e| - 1] == Decimal(n / 10);
      DecimalInjective(m / 10, n / 10);
    } else if m >= 10 || n >= 10 {
      DecimalNonEmpty(m / 10);
      DecimalNonEmpty(n / 10);
    }
  }

  function DecimalValue(s: Bytes): int {
    if s == [] then 0 else 10 * DecimalValue(s[..|s| - 1]) + (s[|s| - 1] as int - '0' as int)
  }

  /** The text is made of digits and reads as the number. */
  lemma {:induction false} DecimalReads(n: nat)
    ensures DecimalValue(Decimal(n)) == n
    ensures forall k | 0 <= k < |Decimal(n)| :: '0' as int <= Decimal(n)[k] <= '9' as int
  {
    if n >= 10 {
      DecimalReads(n / 10);
      assert Decimal(n)[..|Decimal(n)| - 1] == Decimal(n / 10);
    }
  }

  lemma {:induction false} DecimalNonEmpty(n: nat)
    ensures Decimal(n) != []
  {
  }

  function SignedDecimal(n: int): Bytes {
    if n < 0 then [45] + Decimal(-n) else Decimal(n)
  }
}
