/** What a clean run works on: the stored plan canonicalized again, the allowed rows among it, and the
    filters of the command line. */
module Selection {
  import opened Base
  import opened Policy
  import opened Protocol
  import opened Rules
  import opened Hierarchy
  import opened Cleaning
  import opened Batch

  /** A row of the plan joined with the scanned identity of its path. */
  datatype CleanRow = CleanRow(row: Input, size: int, scannedDev: Option<nat>, scannedInode: Option<nat>)

  function InputsOf(rows: seq<CleanRow>): (inputs: seq<Input>)
    ensures |inputs| == |rows|
  {
    seq(|rows|, i requires 0 <= i < |rows| => rows[i].row)
  }

  /** The rows clean may act on: those of the decisions that do not block. */
  function Unblocked(rows: seq<CleanRow>, ds: seq<Decision>): seq<CleanRow>
    requires Sources(InputsOf(rows), ds)
  {
    if ds == [] then []
    else
      var d := ds[|ds| - 1];
      Unblocked(rows, ds[..|ds| - 1]) +
      if d.blocked then [] else [rows[d.source].(row := Kept(InputsOf(rows), d))]
  }

  /** The allowed rows that some canonical decisions leave. */
  ghost predicate AllowedBy(rows: seq<CleanRow>, ds: seq<Decision>, allowed: seq<CleanRow>) {
    Canonical(InputsOf(rows), ds) && Sources(InputsOf(rows), ds) && allowed == Unblocked(rows, ds)
  }

  /** `load_allowed_candidates` over the stored rows. */
  method LoadAllowed(rows: seq<CleanRow>) returns (allowed: seq<CleanRow>)
    ensures exists ds :: AllowedBy(rows, ds, allowed)
  {
    var inputs := InputsOf(rows);
    var ds := CanonicalizeHierarchy(inputs);
    CanonicalRowsAreSettled(inputs, ds);
    allowed := [];
    for k := 0 to |ds|
      invariant allowed == Unblocked(rows, ds[..k])
    {
      var d := ds[k];
      assert ds[..k + 1][..k] == ds[..k];
      if !d.blocked {
        allowed := allowed + [rows[d.source].(row := Kept(inputs, d))];
      }
    }
    assert ds[..|ds|] == ds;
    assert AllowedBy(rows, ds, allowed);
  }

  /** An allowed row comes from an available decision for its path. */
  lemma {:induction false} AllowedComesFrom(rows: seq<CleanRow>, ds: seq<Decision>, n: nat, c: CleanRow)
    requires Sources(InputsOf(rows), ds) && n <= |ds| && c in Unblocked(rows, ds[..n])
    ensures exists k: nat :: k < n && !ds[k].blocked && c == rows[ds[k].source].(row := Kept(InputsOf(rows), ds[k]))
  {
    assert ds[..n][..n - 1] == ds[..n - 1];
    if c in Unblocked(rows, ds[..n - 1]) {
      AllowedComesFrom(rows, ds, n - 1, c);
    }
  }

  lemma {:induction false} TwoAllowedAreApart(rows: seq<CleanRow>, ds: seq<Decision>, n: nat, b: CleanRow, c: CleanRow)
    requires Canonical(InputsOf(rows), ds) && Sources(InputsOf(rows), ds) && n < |ds| && !ds[n].blocked
    requires b in Unblocked(rows, ds[..n]) && c == rows[ds[n].source].(row := Kept(InputsOf(rows), ds[n]))
    requires b.row.target.Payload? && c.row.target.Payload?
    ensures !Overlap(b.row.target.path, c.row.target.path)
  {
    AllowedComesFrom(rows, ds, n, b);
    var k: nat :| k < n && !ds[k].blocked && b == rows[ds[k].source].(row := Kept(InputsOf(rows), ds[k]));
    AvailablePathsAreApart(InputsOf(rows), ds, k, n, b.row.target.path, c.row.target.path);
  }

  lemma {:induction false} AllowedAreApart(rows: seq<CleanRow>, ds: seq<Decision>, n: nat)
    requires Canonical(InputsOf(rows), ds) && Sources(InputsOf(rows), ds) && n <= |ds|
    ensures PathsApart(Unblocked(rows, ds[..n]))
  {
    if n > 0 {
      AllowedAreApart(rows, ds, n - 1);
      assert ds[..n][..n - 1] == ds[..n - 1];
      var before, d := Unblocked(rows, ds[..n - 1]), ds[n - 1];
      if !d.blocked {
        var c := rows[d.source].(row := Kept(InputsOf(rows), d));
        forall i | 0 <= i < |before| && before[i].row.target.Payload? && c.row.target.Payload?
          ensures !Overlap(before[i].row.target.path, c.row.target.path)
        {
          TwoAllowedAreApart(rows, ds, n - 1, before[i], c);
        }
      }
    }
  }

  predicate PathsApart(cs: seq<CleanRow>) {
    forall i, j | 0 <= i < j < |cs| && cs[i].row.target.Payload? && cs[j].row.target.Payload? ::
      !Overlap(cs[i].row.target.path, cs[j].row.target.path)
  }

  lemma {:induction false} UnblockedHas(rows: seq<CleanRow>, ds: seq<Decision>, n: nat, k: nat)
    requires Sources(InputsOf(rows), ds) && k < n <= |ds| && !ds[k].blocked
    ensures rows[ds[k].source].(row := Kept(InputsOf(rows), ds[k])) in Unblocked(rows, ds[..n])
  {
    assert ds[..n][..n - 1] == ds[..n - 1];
    if k < n - 1 { UnblockedHas(rows, ds, n - 1, k); }
  }

  /** The rows of a path, and that clean may act on it. */
  ghost predicate MayClean(rows: seq<CleanRow>, p: Path) {
    && (exists r :: r in rows && r.row.target == Payload(p))
    && (forall r | r in rows && r.row.target == Payload(p) ::
          !r.row.blocked && r.row.reversible && (r.row.action == Quarantine || r.row.action == Trash))
    && (forall r | r in rows && r.row.target.Payload? && p <= r.row.target.path :: r.row.target.path == p)
  }

  lemma {:induction false} AvailableMeansMayClean(rows: seq<CleanRow>, ds: seq<Decision>, k: nat, p: Path)
    requires Canonical(InputsOf(rows), ds) && Decides(InputsOf(rows), ds, k, p)
    ensures !ds[k].blocked <==> MayClean(rows, p)
  {
    var inputs := InputsOf(rows);
    ExactMeaning(inputs, ds, k, p);
    assert rows[ds[k].source] in rows && rows[ds[k].source].row.target == Payload(p);
    if MayClean(rows, p) {
      forall j: nat, q | IsRow(inputs, j, q) ensures !StrictlyAbove(p, q) {
        assert rows[j] in rows && rows[j].row.target == Payload(q);
      }
      forall j: nat | IsRow(inputs, j, p)
        ensures !inputs[j].blocked && inputs[j].reversible && RawFilesystemAction(inputs[j].action)
      {
        assert rows[j] in rows && rows[j].row.target == Payload(p);
      }
    }
    if !ds[k].blocked {
      forall r | r in rows && r.row.target.Payload? && p <= r.row.target.path
        ensures r.row.target.path == p && !r.row.blocked && r.row.reversible
                && (r.row.action == Quarantine || r.row.action == Trash)
      {
        var j :| 0 <= j < |rows| && rows[j] == r;
        var n: nat := j;
        assert IsRow(inputs, n, r.row.target.path);
        assert !StrictlyAbove(p, r.row.target.path);
      }
    }
  }

  /** Exactly what clean may act on: a path is allowed if it has a stored row, none of its rows is blocked,
      irreversible or never executed, and no other path with a row lies below it.  Its one row is a stored one,
      with the scanned identity stored with it, and has the highest risk among the path's rows. */
  lemma {:induction false} AllowedSays(rows: seq<CleanRow>, ds: seq<Decision>, p: Path)
    requires Canonical(InputsOf(rows), ds) && Sources(InputsOf(rows), ds)
    ensures (exists c :: c in Unblocked(rows, ds) && c.row.target == Payload(p)) <==> MayClean(rows, p)
    ensures forall c | c in Unblocked(rows, ds) && c.row.target == Payload(p) ::
              && (exists r :: r in rows && c == r.(row := r.row.(reason := None)) && !r.row.blocked)
              && (forall r | r in rows && r.row.target == Payload(p) :: r.row.risk.Rank() <= c.row.risk.Rank())
  {
    var inputs := InputsOf(rows);
    assert ds[..|ds|] == ds;
    forall c | c in Unblocked(rows, ds) && c.row.target == Payload(p)
      ensures MayClean(rows, p)
      ensures exists r :: r in rows && c == r.(row := r.row.(reason := None)) && !r.row.blocked
      ensures forall r | r in rows && r.row.target == Payload(p) :: r.row.risk.Rank() <= c.row.risk.Rank()
    {
      AllowedComesFrom(rows, ds, |ds|, c);
      var k: nat :| k < |ds| && !ds[k].blocked && c == rows[ds[k].source].(row := Kept(inputs, ds[k]));
      AllowedRowSays(rows, ds, k, p, c);
    }
    if MayClean(rows, p) {
      var r :| r in rows && r.row.target == Payload(p);
      var j :| 0 <= j < |rows| && rows[j] == r;
      var n: nat := j;
      assert IsRow(inputs, n, p) && HasRow(inputs, p);
      OneDecisionPerPath(inputs, ds, p);
      var k :| Decides(inputs, ds, k, p);
      AvailableMeansMayClean(rows, ds, k, p);
      UnblockedHas(rows, ds, |ds|, k);
    }
  }

  lemma {:induction false} AllowedRowSays(rows: seq<CleanRow>, ds: seq<Decision>, k: nat, p: Path, c: CleanRow)
    requires Canonical(InputsOf(rows), ds) && Sources(InputsOf(rows), ds) && k < |ds| && !ds[k].blocked
    requires c == rows[ds[k].source].(row := Kept(InputsOf(rows), ds[k])) && c.row.target == Payload(p)
    ensures MayClean(rows, p)
    ensures exists r :: r in rows && c == r.(row := r.row.(reason := None)) && !r.row.blocked
    ensures forall r | r in rows && r.row.target == Payload(p) :: r.row.risk.Rank() <= c.row.risk.Rank()
  {
    var inputs := InputsOf(rows);
    assert Decides(inputs, ds, k, p);
    AvailableMeansMayClean(rows, ds, k, p);
    ExactMeaning(inputs, ds, k, p);
    assert Rightful(inputs, ds[k]);
    var r := rows[ds[k].source];
    assert r in rows && r.row.risk == ds[k].risk;
    forall r | r in rows && r.row.target == Payload(p) ensures r.row.risk.Rank() <= c.row.risk.Rank() {
      var j :| 0 <= j < |rows| && rows[j] == r;
      var n: nat := j;
      assert IsRow(inputs, n, p);
    }
  }

  // The filters of run_clean and execute_interactive

  predicate Retained(c: CleanRow, max: Risk, root: Option<Path>) {
    RiskAllows(c.row.risk, max) && Within(root, c.row.target)
  }

  /** A row that `execute_interactive` hands to `quarantine_candidate`. */
  predicate Executed(c: CleanRow) {
    c.row.reversible && RawFilesystemAction(c.row.action)
  }

  /** The elements of `a` that satisfy `p`, in their order. */
  function Filter(p: CleanRow -> bool, a: seq<CleanRow>): seq<CleanRow> {
    if a == [] then []
    else Filter(p, a[..|a| - 1]) + if p(a[|a| - 1]) then [a[|a| - 1]] else []
  }

  /** The loops over the candidates that keep some of them. */
  method Keep(p: CleanRow -> bool, a: seq<CleanRow>) returns (r: seq<CleanRow>)
    ensures r == Filter(p, a)
  {
    r := [];
    for i := 0 to |a|
      invariant r == Filter(p, a[..i])
    {
      assert a[..i + 1][..i] == a[..i];
      if p(a[i]) {
        r := r + [a[i]];
      }
    }
    assert a[..|a|] == a;
  }

  lemma {:induction false} FilterKeeps(p: CleanRow -> bool, a: seq<CleanRow>)
    ensures forall c :: c in Filter(p, a) <==> c in a && p(c)
    ensures PathsApart(a) ==> PathsApart(Filter(p, a))
  {
    if a != [] {
      var n := |a| - 1;
      FilterKeeps(p, a[..n]);
      assert a == a[..n] + [a[n]];
      if PathsApart(a) && p(a[n]) {
        var before := Filter(p, a[..n]);
        forall i | 0 <= i < |before| && before[i].row.target.Payload? && a[n].row.target.Payload?
          ensures !Overlap(before[i].row.target.path, a[n].row.target.path)
        {
          assert before[i] in a[..n];
          var j :| 0 <= j < n && a[j] == before[i];
        }
      }
    }
  }

  function ToCandidate(c: CleanRow): Candidate
    requires c.row.target.Payload?
  {
    Candidate(c.row.target.path, c.row.risk, c.row.reversible, c.row.action, c.scannedDev, c.scannedInode)
  }

  predicate AllPayload(cs: seq<CleanRow>) {
    forall i | 0 <= i < |cs| :: cs[i].row.target.Payload?
  }

  function ToCandidates(cs: seq<CleanRow>): seq<Candidate>
    requires AllPayload(cs)
  {
    seq(|cs|, i requires 0 <= i < |cs| => ToCandidate(cs[i]))
  }

  /** The chosen rows are allowed ones that passed the filters, each once. */
  ghost predicate Chosen(rows: seq<CleanRow>, ds: seq<Decision>, max: Risk, root: Option<Path>, chosen: seq<CleanRow>) {
    && Canonical(InputsOf(rows), ds) && Sources(InputsOf(rows), ds)
    && (forall c | c in chosen :: c in Filter(c => Retained(c, max, root) && Executed(c), Unblocked(rows, ds)))
    && (forall i, j | 0 <= i < j < |chosen| :: chosen[i] != chosen[j])
  }

  /** What is handed to quarantine: paths clean may act on, within the root, of a risk up to the chosen one. */
  lemma {:induction false} ChosenMeans(rows: seq<CleanRow>, ds: seq<Decision>, max: Risk, root: Option<Path>,
                                       chosen: seq<CleanRow>, c: CleanRow)
    requires Chosen(rows, ds, max, root, chosen) && c in chosen
    ensures c.row.reversible && (c.row.action == Quarantine || c.row.action == Trash)
    ensures c.row.risk != Forbidden && (max == Low ==> c.row.risk == Low) && (max == Medium ==> c.row.risk != High)
    ensures root.Some? ==> c.row.target.Payload? && root.value <= c.row.target.path
    ensures c.row.target.Payload? ==>
              && MayClean(rows, c.row.target.path)
              && var d := ToCandidate(c);
                 exists r :: r in rows && r.row.target == Payload(d.path) && d.path == c.row.target.path
                   && d.risk == r.row.risk && d.reversible == r.row.reversible && d.action == r.row.action
                   && d.scannedDev == r.scannedDev && d.scannedInode == r.scannedInode
  {
    assert c in Filter(c => Retained(c, max, root) && Executed(c), Unblocked(rows, ds));
    FilterKeeps(c => Retained(c, max, root) && Executed(c), Unblocked(rows, ds));
    if c.row.target.Payload? { AllowedSays(rows, ds, c.row.target.path); }
  }

  /** A clean run over a stored plan: whichever of the allowed rows the filters and the limit leave, in
      whatever order, they are pairwise apart; and if each is as the scan saw it, an undisturbed run
      quarantines them all and takes nothing else. */
  lemma {:induction false} CleanRunTakesExactlyTheChosen(
    rows: seq<CleanRow>, ds: seq<Decision>, max: Risk, root: Option<Path>, chosen: seq<CleanRow>,
    cfg: Config, s: State, runs: seq<seq<Event>>)
    requires Chosen(rows, ds, max, root, chosen) && AllPayload(chosen)
    requires Prepared(cfg, s) && (forall c | c in ToCandidates(chosen) :: Sound(cfg, s.fs, c))
    requires |runs| == |chosen| && Smoothly(runs)
    ensures Executables(cfg, s, ToCandidates(chosen))
    ensures LoopDone(cfg, s, ToCandidates(chosen), After(cfg, s, ToCandidates(chosen), runs))
  {
    var cs := ToCandidates(chosen);
    ChosenAreApart(rows, ds, max, root, chosen);
    forall i | 0 <= i < |cs| ensures Sound(cfg, s.fs, cs[i]) {
      assert cs[i] in cs;
    }
    BatchSucceeds(cfg, s, cs, runs);
  }

  /** A chosen row comes from an available decision for its path. */
  lemma {:induction false} ChosenIsAvailable(rows: seq<CleanRow>, ds: seq<Decision>, max: Risk, root: Option<Path>,
                                             chosen: seq<CleanRow>, c: CleanRow, p: Path) returns (k: nat)
    requires Chosen(rows, ds, max, root, chosen) && c in chosen && c.row.target == Payload(p)
    ensures Decides(InputsOf(rows), ds, k, p) && !ds[k].blocked
  {
    assert ds[..|ds|] == ds;
    FilterKeeps(c => Retained(c, max, root) && Executed(c), Unblocked(rows, ds));
    AllowedComesFrom(rows, ds, |ds|, c);
    k :| k < |ds| && !ds[k].blocked && c == rows[ds[k].source].(row := Kept(InputsOf(rows), ds[k]));
  }

  lemma {:induction false} ChosenAreApart(rows: seq<CleanRow>, ds: seq<Decision>, max: Risk, root: Option<Path>,
                                          chosen: seq<CleanRow>)
    requires Chosen(rows, ds, max, root, chosen)
    ensures PathsApart(chosen)
  {
    var allowed := Unblocked(rows, ds);
    AllowedAreApart(rows, ds, |ds|);
    assert ds[..|ds|] == ds;
    FilterKeeps(c => Retained(c, max, root) && Executed(c), allowed);
    forall i, j | 0 <= i < j < |chosen| && chosen[i].row.target.Payload? && chosen[j].row.target.Payload?
      ensures !Overlap(chosen[i].row.target.path, chosen[j].row.target.path)
    {
      assert chosen[i] in chosen && chosen[j] in chosen;
      var k :| 0 <= k < |allowed| && allowed[k] == chosen[i];
      var l :| 0 <= l < |allowed| && allowed[l] == chosen[j];
      assert k < l || l < k;
    }
  }
}
