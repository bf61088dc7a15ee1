/** What canonicalization means for its users, for every set of rows. */
module Hierarchy {
  import opened Base
  import opened Order
  import opened Policy
  import opened Rules

  /** Decision `k` is the one for path `p`. */
  predicate Decides(inputs: seq<Input>, ds: seq<Decision>, k: int, p: Path) {
    0 <= k < |ds| && ds[k].source < |inputs| && inputs[ds[k].source].target == Payload(p)
  }

  lemma {:induction false} OneDecisionPerPath(inputs: seq<Input>, ds: seq<Decision>, p: Path)
    requires Canonical(inputs, ds)
    ensures HasRow(inputs, p) <==> exists k :: Decides(inputs, ds, k, p)
    ensures forall k, l | Decides(inputs, ds, k, p) && Decides(inputs, ds, l, p) :: k == l
  {
    if HasRow(inputs, p) {
      var s := SomeSpeaker(inputs, p, |inputs|);
      assert Selected(inputs, s);
      var k :| 0 <= k < |ds| && ds[k].source == s;
      assert Decides(inputs, ds, k, p);
    }
    forall k | Decides(inputs, ds, k, p) ensures IsRow(inputs, ds[k].source, p) && Speaks(inputs, ds[k].source) {
      assert Rightful(inputs, ds[k]);
    }
    forall k, l | Decides(inputs, ds, k, p) && Decides(inputs, ds, l, p) ensures k == l {
      OneSpeaker(inputs, ds[k].source, ds[l].source);
    }
  }

  /** The strictest of the first `n` rows of a path. */
  lemma {:induction false} Strictest(inputs: seq<Input>, p: Path, n: nat) returns (s: Option<nat>)
    requires n <= |inputs|
    ensures s.Some? ==> s.value < n && IsRow(inputs, s.value, p) &&
                        forall j: nat | j < n && IsRow(inputs, j, p) :: Before(inputs, s.value, j)
    ensures s.None? ==> forall j: nat | j < n :: !IsRow(inputs, j, p)
  {
    if n == 0 { return None; }
    s := Strictest(inputs, p, n - 1);
    if IsRow(inputs, n - 1, p) {
      if s.None? {
        BeforeTotal(inputs, n - 1, n - 1);
        s := Some(n - 1);
      } else {
        var best := s.value;
        BeforeTotal(inputs, best, n - 1);
        BeforeTotal(inputs, n - 1, n - 1);
        if !Before(inputs, best, n - 1) {
          forall j: nat | j < n - 1 && IsRow(inputs, j, p) ensures Before(inputs, n - 1, j) {
            BeforeTransitive(inputs, n - 1, best, j);
          }
          s := Some(n - 1);
        }
      }
    }
  }

  lemma {:induction false} SomeSpeaker(inputs: seq<Input>, p: Path, n: nat) returns (s: nat)
    requires n == |inputs| && HasRow(inputs, p)
    ensures Speaks(inputs, s) && IsRow(inputs, s, p)
  {
    var found := Strictest(inputs, p, n);
    s := found.value;
  }

  /** A path is available exactly when no row of it is restrictive and nothing else lies strictly below
      it; its risk is the highest among its rows. */
  lemma {:induction false} ExactMeaning(inputs: seq<Input>, ds: seq<Decision>, k: nat, p: Path)
    requires Canonical(inputs, ds) && Decides(inputs, ds, k, p)
    ensures !ds[k].blocked <==>
              && (forall j: nat | IsRow(inputs, j, p) ::
                   && !inputs[j].blocked && inputs[j].reversible
                   && (inputs[j].action == Quarantine || inputs[j].action == Trash))
              && (forall j: nat, q | IsRow(inputs, j, q) :: !StrictlyAbove(p, q))
    ensures exists j: nat :: IsRow(inputs, j, p) && inputs[j].risk == ds[k].risk
    ensures forall j: nat | IsRow(inputs, j, p) :: inputs[j].risk.Rank() <= ds[k].risk.Rank()
    ensures ds[k].blocked ==> ds[k].reason.Some?
  {
    assert Rightful(inputs, ds[k]);
    assert IsRow(inputs, ds[k].source, p);
    assert forall j: nat | IsRow(inputs, j, p) :: Before(inputs, ds[k].source, j);
  }

  /** The row that speaks for a path: the highest risk, then a blocked row before one that is not, a row that
      cannot be undone before one that can, one that is never executed before one that is, then the rule's
      name, then the order of the rows. */
  lemma {:induction false} SpeakerIs(inputs: seq<Input>, i: nat, j: nat, p: Path)
    requires Speaks(inputs, i) && IsRow(inputs, i, p) && IsRow(inputs, j, p) && i != j
    ensures var a, b := inputs[i], inputs[j];
            || a.risk.Rank() > b.risk.Rank()
            || (a.risk == b.risk &&
                (|| (a.blocked && !b.blocked)
                 || (a.blocked == b.blocked &&
                     (|| (!a.reversible && b.reversible)
                      || (a.reversible == b.reversible &&
                          var x, y := a.action == Quarantine || a.action == Trash,
                                      b.action == Quarantine || b.action == Trash;
                          (|| (!x && y)
                           || (x == y &&
                               (if a.ruleId == b.ruleId then i < j
                                else a.ruleId <= b.ruleId ||
                                     exists k: nat :: PartAt(a.ruleId, b.ruleId, k) && a.ruleId[k] < b.ruleId[k]))))))))
  {
    assert Before(inputs, i, j);
    TextLeMeans(inputs[i].ruleId, inputs[j].ruleId);
  }

  /** Adapter rows come out as they went in, each exactly once. */
  lemma {:induction false} AdaptersPassThrough(inputs: seq<Input>, ds: seq<Decision>, i: nat)
    requires Canonical(inputs, ds) && i < |inputs| && inputs[i].target.Adapter?
    ensures Decision(i, inputs[i].risk, inputs[i].blocked, inputs[i].reason) in ds
    ensures forall k, l | 0 <= k < l < |ds| :: ds[k].source != i || ds[l].source != i
  {
    assert Selected(inputs, i);
    var k :| 0 <= k < |ds| && ds[k].source == i;
    assert Rightful(inputs, ds[k]);
  }

  /** The available paths are pairwise apart. */
  lemma {:induction false} AvailablePathsAreApart(inputs: seq<Input>, ds: seq<Decision>, k: nat, l: nat, p: Path,
                                                  q: Path)
    requires Canonical(inputs, ds) && Decides(inputs, ds, k, p) && Decides(inputs, ds, l, q) && k != l
    requires !ds[k].blocked && !ds[l].blocked
    ensures !Overlap(p, q)
  {
    OneDecisionPerPath(inputs, ds, p);
    ExactMeaning(inputs, ds, k, p);
    ExactMeaning(inputs, ds, l, q);
    assert IsRow(inputs, ds[k].source, p) && IsRow(inputs, ds[l].source, q);
    assert p != q;
    assert !StrictlyAbove(p, q) && !StrictlyAbove(q, p);
  }

  /** The rows determine the result. */
  lemma {:induction false} CanonicalIsUnique(inputs: seq<Input>, ds: seq<Decision>, es: seq<Decision>)
    requires Canonical(inputs, ds) && Canonical(inputs, es)
    ensures ds == es
  {
    forall d | d in ds ensures d in es {
      SameDecision(inputs, ds, es, d);
    }
    forall d | d in es ensures d in ds {
      SameDecision(inputs, es, ds, d);
    }
    IncreasingAreEqual(ds, es);
  }

  lemma {:induction false} SameDecision(inputs: seq<Input>, ds: seq<Decision>, es: seq<Decision>, d: Decision)
    requires Canonical(inputs, ds) && Canonical(inputs, es) && d in ds
    ensures d in es
  {
    assert Rightful(inputs, d);
    var k :| 0 <= k < |es| && es[k].source == d.source;
    assert Rightful(inputs, es[k]);
    if inputs[d.source].target.Payload? && HasRestrictiveRow(inputs, inputs[d.source].target.path) {
      ReasonIsUnique(inputs, inputs[d.source].target.path, d.reason, es[k].reason);
    }
    assert es[k] == d;
  }

  lemma {:induction false} ReasonIsUnique(inputs: seq<Input>, p: Path, a: Option<Reason>, b: Option<Reason>)
    requires GroupReason(inputs, p, a) && GroupReason(inputs, p, b)
    ensures a == b
  {
    forall x, y | FirstReason(inputs, p, x) && FirstReason(inputs, p, y) ensures x == y {
      if x.Some? && y.Some? {
        var i: nat :| IsRow(inputs, i, p) && inputs[i].reason == x
          && forall j: nat | IsRow(inputs, j, p) && inputs[j].reason.Some? :: Before(inputs, i, j);
        var l: nat :| IsRow(inputs, l, p) && inputs[l].reason == y
          && forall j: nat | IsRow(inputs, j, p) && inputs[j].reason.Some? :: Before(inputs, l, j);
        BeforeTotal(inputs, i, l);
      }
    }
  }

  lemma {:induction false} IncreasingAreEqual(ds: seq<Decision>, es: seq<Decision>)
    requires Increasing(ds) && Increasing(es)
    requires forall d :: d in ds <==> d in es
    ensures ds == es
  {
    assert es != [] ==> es[0] in es;
    if ds != [] {
      assert ds[0] in ds;
      assert es != [];
      assert es[0] in es;
      assert ds[0] == es[0];
      forall d ensures d in ds[1..] <==> d in es[1..] {
        assert d in ds <==> d == ds[0] || d in ds[1..];
        assert d in es <==> d == es[0] || d in es[1..];
        assert ds[0] !in ds[1..] && es[0] !in es[1..];
      }
      IncreasingAreEqual(ds[1..], es[1..]);
    }
  }

  // More rows, other order

  /** Every row of `a` is a row of `b`. */
  ghost predicate Included(a: seq<Input>, b: seq<Input>) {
    forall i: nat | i < |a| :: a[i] in b
  }

  lemma {:induction false} IncludedRows(a: seq<Input>, b: seq<Input>, p: Path)
    requires Included(a, b)
    ensures HasRestrictiveRow(a, p) ==> HasRestrictiveRow(b, p)
    ensures HasRowBelow(a, p) ==> HasRowBelow(b, p)
    ensures forall i: nat | IsRow(a, i, p) :: exists j: nat :: IsRow(b, j, p) && b[j] == a[i]
  {
    forall i: nat | i < |a| ensures exists j: nat :: j < |b| && b[j] == a[i] {
      assert a[i] in b;
    }
    if HasRestrictiveRow(a, p) {
      var i: nat :| IsRow(a, i, p) && Restrictive(a[i]);
      var j: nat :| j < |b| && b[j] == a[i];
      assert IsRow(b, j, p);
    }
    if HasRowBelow(a, p) {
      var i: nat, q :| IsRow(a, i, q) && StrictlyAbove(p, q);
      var j: nat :| j < |b| && b[j] == a[i];
      assert IsRow(b, j, q);
    }
    forall i: nat | IsRow(a, i, p) ensures exists j: nat :: IsRow(b, j, p) && b[j] == a[i] {
      var j: nat :| j < |b| && b[j] == a[i];
      assert IsRow(b, j, p);
    }
  }

  /** Adding rows never makes a blocked path available and never lowers a risk. */
  lemma {:induction false} CanonicalizationIsMonotone(a: seq<Input>, b: seq<Input>, ds: seq<Decision>,
                                                      es: seq<Decision>, k: nat, l: nat, p: Path)
    requires Included(a, b) && Canonical(a, ds) && Canonical(b, es)
    requires Decides(a, ds, k, p) && Decides(b, es, l, p)
    ensures ds[k].blocked ==> es[l].blocked
    ensures ds[k].risk.Rank() <= es[l].risk.Rank()
  {
    IncludedRows(a, b, p);
    ExactMeaning(a, ds, k, p);
    ExactMeaning(b, es, l, p);
    assert Rightful(a, ds[k]) && Rightful(b, es[l]);
    var i: nat :| IsRow(a, i, p) && a[i].risk == ds[k].risk;
    var j: nat :| IsRow(b, j, p) && b[j] == a[i];
  }

  /** The order of the rows and their repetition do not matter to any path's risk or availability. */
  lemma {:induction false} CanonicalizationIgnoresOrder(a: seq<Input>, b: seq<Input>, ds: seq<Decision>,
                                                        es: seq<Decision>, k: nat, l: nat, p: Path)
    requires Included(a, b) && Included(b, a) && Canonical(a, ds) && Canonical(b, es)
    requires Decides(a, ds, k, p) && Decides(b, es, l, p)
    ensures ds[k].blocked == es[l].blocked && ds[k].risk == es[l].risk
  {
    CanonicalizationIsMonotone(a, b, ds, es, k, l, p);
    CanonicalizationIsMonotone(b, a, es, ds, l, k, p);
  }

  // Canonicalizing what was canonical

  /** Rows that already say what canonicalization would: one per path, and every restriction or
      overlap shows as a block. */
  ghost predicate Settled(rows: seq<Input>) {
    && (forall i: nat, j: nat, p | IsRow(rows, i, p) && IsRow(rows, j, p) :: i == j)
    && (forall i: nat, p | IsRow(rows, i, p) :: (Restrictive(rows[i]) || HasRowBelow(rows, p)) ==> rows[i].blocked)
  }

  /** The row a plan keeps for a decision. */
  function Kept(inputs: seq<Input>, d: Decision): Input
    requires d.source < |inputs|
  {
    var row := inputs[d.source];
    var reason := if !d.blocked then None else if d.reason.Some? then d.reason else row.reason;
    row.(risk := d.risk, blocked := d.blocked, reason := reason)
  }

  predicate Sources(inputs: seq<Input>, ds: seq<Decision>) {
    forall k | 0 <= k < |ds| :: ds[k].source < |inputs|
  }

  function KeptRows(inputs: seq<Input>, ds: seq<Decision>): seq<Input>
    requires Sources(inputs, ds)
  {
    seq(|ds|, k requires 0 <= k < |ds| => Kept(inputs, ds[k]))
  }

  /** A kept row has the risk and block of its decision, and says why exactly when it is blocked. */
  lemma {:induction false} KeptRowSays(inputs: seq<Input>, ds: seq<Decision>, k: nat, p: Path)
    requires Canonical(inputs, ds) && Decides(inputs, ds, k, p)
    ensures var row, r := inputs[ds[k].source], Kept(inputs, ds[k]);
            && r.target == row.target && r.reversible == row.reversible && r.action == row.action
            && r.ruleId == row.ruleId && r.risk == ds[k].risk && r.blocked == ds[k].blocked
            && r.reason == (if r.blocked then ds[k].reason else None) && (r.blocked ==> r.reason.Some?)
  {
    ExactMeaning(inputs, ds, k, p);
  }

  lemma {:induction false} KeptPaths(inputs: seq<Input>, ds: seq<Decision>, p: Path)
    requires Canonical(inputs, ds)
    ensures Sources(inputs, ds)
    ensures HasRow(KeptRows(inputs, ds), p) <==> HasRow(inputs, p)
    ensures forall k: nat :: IsRow(KeptRows(inputs, ds), k, p) <==> Decides(inputs, ds, k, p)
  {
    assert forall k | 0 <= k < |ds| :: Rightful(inputs, ds[k]);
    OneDecisionPerPath(inputs, ds, p);
    var rows := KeptRows(inputs, ds);
    assert forall k: nat :: IsRow(rows, k, p) <==> Decides(inputs, ds, k, p);
    if HasRow(inputs, p) {
      var k :| Decides(inputs, ds, k, p);
      assert IsRow(rows, k, p);
    }
  }

  lemma {:induction false} CanonicalRowsAreSettled(inputs: seq<Input>, ds: seq<Decision>)
    requires Canonical(inputs, ds)
    ensures Sources(inputs, ds) && Settled(KeptRows(inputs, ds))
  {
    assert forall k | 0 <= k < |ds| :: Rightful(inputs, ds[k]);
    var rows := KeptRows(inputs, ds);
    forall i: nat, j: nat, p | IsRow(rows, i, p) && IsRow(rows, j, p) ensures i == j {
      KeptPaths(inputs, ds, p);
      OneDecisionPerPath(inputs, ds, p);
    }
    forall i: nat, p | IsRow(rows, i, p) && (Restrictive(rows[i]) || HasRowBelow(rows, p)) ensures rows[i].blocked {
      KeptPaths(inputs, ds, p);
      if HasRowBelow(rows, p) {
        var j: nat, q :| IsRow(rows, j, q) && StrictlyAbove(p, q);
        KeptPaths(inputs, ds, q);
        assert IsRow(inputs, ds[j].source, q);
      } else {
        assert IsRow(inputs, ds[i].source, p);
        assert rows[i].blocked || Restrictive(inputs[ds[i].source]);
      }
    }
  }

  /** Canonicalizing settled rows changes no path, risk or block. */
  lemma {:induction false} SettledRowsStay(rows: seq<Input>, ds: seq<Decision>)
    requires Settled(rows) && Canonical(rows, ds)
    ensures |ds| == |rows|
    ensures forall k: nat | k < |rows| ::
              ds[k].source == k && ds[k].risk == rows[k].risk && ds[k].blocked == rows[k].blocked
  {
    forall i: nat | i < |rows| ensures Selected(rows, i) {
      if rows[i].target.Payload? {
        forall j: nat | IsRow(rows, j, rows[i].target.path) ensures Before(rows, i, j) {
          assert IsRow(rows, i, rows[i].target.path);
          BeforeTotal(rows, i, j);
        }
      }
    }
    AllSelectedMeansIdentity(rows, ds, |rows|);
    assert forall k | 0 <= k < |ds| :: Rightful(rows, ds[k]);
    SourcesGrow(ds, |ds| - 1);
    forall k: nat | k < |rows| ensures ds[k].risk == rows[k].risk && ds[k].blocked == rows[k].blocked {
      assert Rightful(rows, ds[k]);
      if rows[k].target.Payload? {
        assert IsRow(rows, k, rows[k].target.path);
      }
    }
  }

  lemma {:induction false} AllSelectedMeansIdentity(rows: seq<Input>, ds: seq<Decision>, n: nat)
    requires Canonical(rows, ds) && n <= |rows| && forall i: nat | i < |rows| :: Selected(rows, i)
    ensures n <= |ds| && forall k: nat | k < n :: ds[k].source == k
  {
    if n > 0 {
      AllSelectedMeansIdentity(rows, ds, n - 1);
      assert Selected(rows, n - 1);
      var k :| 0 <= k < |ds| && ds[k].source == n - 1;
      SourcesGrow(ds, k);
    }
  }

  lemma {:induction false} SourcesGrow(ds: seq<Decision>, k: int)
    requires Increasing(ds) && k < |ds|
    ensures k >= 0 ==> k <= ds[k].source
    decreases k
  {
    if k > 0 { SourcesGrow(ds, k - 1); }
  }
}
