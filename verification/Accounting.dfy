/** No double counting: what a plan allows, or a recommendation selects, never adds up to more than the
    scan root holds. */
module Accounting {
  import opened Base
  import opened Policy
  import opened Rules
  import opened Hierarchy
  import opened Planning
  import opened Authority
  import R = Recommending
  import S = Scanning

  const TWO_63 := 0x8000_0000_0000_0000

  // Subtree sums over paths that are apart

  predicate Apart(paths: seq<Path>) {
    forall i, j | 0 <= i < j < |paths| :: !Overlap(paths[i], paths[j])
  }

  predicate AllBelow(root: Path, paths: seq<Path>) {
    forall i | 0 <= i < |paths| :: root <= paths[i]
  }

  function Sum(records: seq<S.Record>, paths: seq<Path>): nat {
    if paths == [] then 0 else Sum(records, paths[..|paths| - 1]) + S.Allocated(records, paths[|paths| - 1])
  }

  /** What one record contributes to the sums of all the paths. */
  function Share(paths: seq<Path>, r: S.Record): nat {
    if paths == [] then 0
    else Share(paths[..|paths| - 1], r) + if paths[|paths| - 1] <= r.path then r.onDisk else 0
  }

  lemma {:induction false} NoShare(paths: seq<Path>, r: S.Record)
    requires forall i | 0 <= i < |paths| :: !(paths[i] <= r.path)
    ensures Share(paths, r) == 0
  {
    if paths != [] { NoShare(paths[..|paths| - 1], r); }
  }

  /** Paths that are apart count a record once at most. */
  lemma {:induction false} CountedOnce(paths: seq<Path>, r: S.Record)
    requires Apart(paths)
    ensures Share(paths, r) <= r.onDisk
  {
    if paths != [] {
      var n := |paths| - 1;
      if paths[n] <= r.path {
        forall i | 0 <= i < n ensures !(paths[i] <= r.path) {
          if paths[i] <= r.path { PrefixesOverlap(paths[i], paths[n], r.path); }
        }
        NoShare(paths[..n], r);
      } else {
        CountedOnce(paths[..n], r);
      }
    }
  }

  lemma {:induction false} SumPush(records: seq<S.Record>, r: S.Record, paths: seq<Path>)
    ensures Sum(records + [r], paths) == Sum(records, paths) + Share(paths, r)
  {
    if paths != [] {
      SumPush(records, r, paths[..|paths| - 1]);
      AllocatedPush(records, r, paths[|paths| - 1]);
    }
  }

  lemma {:induction false} AllocatedPush(records: seq<S.Record>, r: S.Record, p: Path)
    ensures S.Allocated(records + [r], p) == S.Allocated(records, p) + if p <= r.path then r.onDisk else 0
  {
    assert (records + [r])[..|records + [r]| - 1] == records;
  }

  lemma {:induction false} SumOfNothing(paths: seq<Path>)
    ensures Sum([], paths) == 0
  {
    if paths != [] { SumOfNothing(paths[..|paths| - 1]); }
  }

  /** The subtree sums of paths that are apart add up to no more than the root's. */
  lemma {:induction false} ApartPathsAddUp(records: seq<S.Record>, root: Path, paths: seq<Path>)
    requires Apart(paths) && AllBelow(root, paths)
    ensures Sum(records, paths) <= S.Allocated(records, root)
  {
    if records == [] {
      SumOfNothing(paths);
    } else {
      var n := |records| - 1;
      var r := records[n];
      ApartPathsAddUp(records[..n], root, paths);
      assert records == records[..n] + [r];
      SumPush(records[..n], r, paths);
      CountedOnce(paths, r);
      if !(root <= r.path) {
        forall i | 0 <= i < |paths| ensures !(paths[i] <= r.path) {
          assert root <= paths[i];
        }
        NoShare(paths, r);
      }
    }
  }

  lemma {:induction false} SubtreesAreSmaller(records: seq<S.Record>, root: Path, p: Path)
    requires root <= p
    ensures S.Allocated(records, p) <= S.Allocated(records, root)
  {
    ApartPathsAddUp(records, root, [p]);
    assert [p][..0] == [];
    assert Sum(records, [p]) == Sum(records, []) + S.Allocated(records, p);
  }

  // From the scan to the sizes of a plan

  /** A total as it comes back from its 64-bit signed column. */
  function ReadBack(total: nat): nat {
    var low := total % 0x1_0000_0000_0000_0000;
    if low < TWO_63 then low else 0
  }

  /** Every indexed path is a scanned one, with the size that the scan aggregated for it. */
  ghost predicate SizedByScan(scanRoot: Path, records: seq<S.Record>, items: seq<Indexed>) {
    forall item | item in items ::
      scanRoot <= item.path
      && var agg := S.Folded(scanRoot, records, item.path);
         agg.Some? && item.size == ReadBack(agg.value.onDisk)
  }

  /** An indexed path has the size of its subtree if that fits a signed 64-bit column, and otherwise none. */
  lemma {:induction false} SizeIsSubtreeSumIfItFits(scanRoot: Path, records: seq<S.Record>, items: seq<Indexed>,
                                                    item: Indexed)
    requires SizedByScan(scanRoot, records, items) && item in items
    ensures var sum := S.Allocated(records, item.path);
            item.size == if sum < 0x8000_0000_0000_0000 then sum else 0
  {
    S.TotalsAreSubtreeSums(scanRoot, records, item.path);
  }

  lemma {:induction false} SizesAreSubtreeSums(scanRoot: Path, records: seq<S.Record>, items: seq<Indexed>,
                                               item: Indexed)
    requires SizedByScan(scanRoot, records, items) && item in items && S.Allocated(records, scanRoot) < TWO_63
    ensures item.size == S.Allocated(records, item.path)
  {
    SubtreesAreSmaller(records, scanRoot, item.path);
    S.TotalsAreSubtreeSums(scanRoot, records, item.path);
  }

  /** A plan's filesystem row carries the subtree sum of its path. */
  lemma {:induction false} RowsCarrySubtreeSums(scanRoot: Path, records: seq<S.Record>, q: PlanQuery,
                                                plan: seq<PlanRow>, k: nat, p: Path)
    requires SizedByScan(scanRoot, records, q.items) && S.Allocated(records, scanRoot) < TWO_63
    requires Planned(q, plan) && IsRow(Inputs(plan), k, p)
    ensures scanRoot <= p && plan[k].size == S.Allocated(records, p)
  {
    var front := Matching(q);
    var rows := front + q.adapters;
    var ds: seq<Decision> :| PlannedBy(rows, ds, plan);
    var i := ds[k].source;
    assert Inputs(plan)[k] == Kept(Inputs(rows), ds[k]);
    assert rows[i].row.target == Payload(p);
    assert i < |front|;
    RowsOfItems(q.items, q.root, q.rules, q.max, q.now, rows[i]);
    var item, rule :| item in q.items && Within(q.root, Payload(item.path)) && rule in q.rules
      && RuleMatches(rule, item, q.now) && rows[i] == RuleRow(rule, item, q.max);
    SizesAreSubtreeSums(scanRoot, records, q.items, item);
  }

  // What a plan allows

  predicate Allowed(r: PlanRow) {
    !r.row.blocked && r.row.target.Payload?
  }

  function AllowedBytes(rows: seq<PlanRow>): nat {
    if rows == [] then 0
    else AllowedBytes(rows[..|rows| - 1]) + if Allowed(rows[|rows| - 1]) then rows[|rows| - 1].size else 0
  }

  function AllowedPaths(rows: seq<PlanRow>): seq<Path> {
    if rows == [] then []
    else AllowedPaths(rows[..|rows| - 1]) + if Allowed(rows[|rows| - 1]) then [rows[|rows| - 1].row.target.path] else []
  }

  lemma {:induction false} AllowedPathsAreRows(rows: seq<PlanRow>, p: Path)
    requires p in AllowedPaths(rows)
    ensures exists k: nat :: k < |rows| && Allowed(rows[k]) && rows[k].row.target == Payload(p)
  {
    var n := |rows| - 1;
    if p in AllowedPaths(rows[..n]) {
      AllowedPathsAreRows(rows[..n], p);
      var k: nat :| k < n && Allowed(rows[..n][k]) && rows[..n][k].row.target == Payload(p);
      assert rows[k] == rows[..n][k];
    }
  }

  lemma {:induction false} AllowedRowsAreApart(rows: seq<PlanRow>, i: nat, j: nat, p: Path, q: Path)
    requires Settled(Inputs(rows)) && i < j < |rows| && Allowed(rows[i]) && Allowed(rows[j])
    requires rows[i].row.target == Payload(p) && rows[j].row.target == Payload(q)
    ensures !Overlap(p, q)
  {
    var inputs := Inputs(rows);
    assert IsRow(inputs, i, p) && IsRow(inputs, j, q);
    assert !StrictlyAbove(p, q) && !StrictlyAbove(q, p) && p != q;
  }

  lemma {:induction false} AllowedPathsAreApart(rows: seq<PlanRow>, n: nat)
    requires Settled(Inputs(rows)) && n <= |rows|
    ensures Apart(AllowedPaths(rows[..n]))
  {
    if n > 0 {
      AllowedPathsAreApart(rows, n - 1);
      assert rows[..n][..n - 1] == rows[..n - 1];
      var paths := AllowedPaths(rows[..n - 1]);
      if Allowed(rows[n - 1]) {
        var q := rows[n - 1].row.target.path;
        forall i | 0 <= i < |paths| ensures !Overlap(paths[i], q) {
          AllowedPathsAreRows(rows[..n - 1], paths[i]);
          var k: nat :| k < n - 1 && Allowed(rows[..n - 1][k]) && rows[..n - 1][k].row.target == Payload(paths[i]);
          AllowedRowsAreApart(rows, k, n - 1, paths[i], q);
        }
      }
    }
  }

  /** Each allowed filesystem row has a path below the root and the size of its subtree. */
  ghost predicate Measured(scanRoot: Path, records: seq<S.Record>, rows: seq<PlanRow>) {
    forall k | 0 <= k < |rows| && rows[k].row.target.Payload? ::
      scanRoot <= rows[k].row.target.path && rows[k].size == S.Allocated(records, rows[k].row.target.path)
  }

  lemma {:induction false} SumAppend(records: seq<S.Record>, paths: seq<Path>, p: Path)
    ensures Sum(records, paths + [p]) == Sum(records, paths) + S.Allocated(records, p)
  {
    assert (paths + [p])[..|paths + [p]| - 1] == paths;
  }

  lemma {:induction false} AllowedBytesAreSums(scanRoot: Path, records: seq<S.Record>, rows: seq<PlanRow>)
    requires Measured(scanRoot, records, rows)
    ensures AllowedBytes(rows) == Sum(records, AllowedPaths(rows)) && AllBelow(scanRoot, AllowedPaths(rows))
  {
    if rows != [] {
      var n := |rows| - 1;
      AllowedBytesAreSums(scanRoot, records, rows[..n]);
      if Allowed(rows[n]) {
        var p := rows[n].row.target.path;
        SumAppend(records, AllowedPaths(rows[..n]), p);
        assert AllowedPaths(rows) == AllowedPaths(rows[..n]) + [p];
      } else {
        assert AllowedPaths(rows) == AllowedPaths(rows[..n]);
      }
    }
  }

  lemma {:induction false} EnrichedSize(plan: seq<PlanRow>, evidence: Evidence, max: Risk, k: nat, p: Path)
    requires k < |plan| && EnrichAll(plan, evidence, max)[k].row.target == Payload(p)
    ensures IsRow(Inputs(plan), k, p) && EnrichAll(plan, evidence, max)[k].size == plan[k].size
  {
  }

  lemma {:induction false} PlanIsMeasured(scanRoot: Path, records: seq<S.Record>, q: PlanQuery, plan: seq<PlanRow>,
                                          evidence: Evidence)
    requires SizedByScan(scanRoot, records, q.items) && S.Allocated(records, scanRoot) < TWO_63 && Planned(q, plan)
    ensures Measured(scanRoot, records, EnrichAll(plan, evidence, q.max))
  {
    var rows := EnrichAll(plan, evidence, q.max);
    forall k | 0 <= k < |rows| && rows[k].row.target.Payload?
      ensures scanRoot <= rows[k].row.target.path && rows[k].size == S.Allocated(records, rows[k].row.target.path)
    {
      EnrichedSize(plan, evidence, q.max, k, rows[k].row.target.path);
      RowsCarrySubtreeSums(scanRoot, records, q, plan, k, rows[k].row.target.path);
    }
  }

  lemma {:induction false} AllowedFits(scanRoot: Path, records: seq<S.Record>, rows: seq<PlanRow>)
    requires Settled(Inputs(rows)) && Measured(scanRoot, records, rows)
    ensures AllowedBytes(rows) <= S.Allocated(records, scanRoot)
  {
    AllowedBytesAreSums(scanRoot, records, rows);
    AllowedPathsAreApart(rows, |rows|);
    assert rows[..|rows|] == rows;
    ApartPathsAddUp(records, scanRoot, AllowedPaths(rows));
  }

  /** For every scan whose total fits 63 bits, every index of it, every set of rules, root, threshold and AI
      pass: the allowed filesystem candidates together are no larger than the scan root. */
  lemma {:induction false} PlanNeverDoubleCounts(scanRoot: Path, records: seq<S.Record>, q: PlanQuery,
                                                 plan: seq<PlanRow>, evidence: Evidence)
    requires SizedByScan(scanRoot, records, q.items) && S.Allocated(records, scanRoot) < TWO_63 && Planned(q, plan)
    ensures AllowedBytes(EnrichAll(plan, evidence, q.max)) <= S.Allocated(records, scanRoot)
  {
    PlannedIsSettled(q, plan);
    EnrichmentKeepsSettled(plan, evidence, q.max);
    PlanIsMeasured(scanRoot, records, q, plan, evidence);
    AllowedFits(scanRoot, records, EnrichAll(plan, evidence, q.max));
  }

  // What a recommendation selects

  /** A number as it is kept in a 64-bit signed column: the low 64 bits, negative from 2^63 on. */
  function AsI64(n: nat): int {
    var low := n % 0x1_0000_0000_0000_0000;
    if low < TWO_63 then low else low - 0x1_0000_0000_0000_0000
  }

  /** `persist_plan`: each stored row is a row of the plan. */
  ghost predicate PersistedFrom(plan: seq<PlanRow>, stored: seq<R.Stored>) {
    forall r | r in stored :: exists k: nat :: k < |plan| && StoresRow(r, plan[k])
  }

  predicate StoresRow(r: R.Stored, row: PlanRow) {
    && r.target == row.row.target && r.rawSize == AsI64(row.size) && r.ruleId == row.row.ruleId
    && r.risk == Some(row.row.risk) && r.action == row.row.action && r.reversible == row.row.reversible
    && r.blocked == row.row.blocked
  }

  /** A size that does not fit the column is stored as a negative one, which a recommendation refuses to read. */
  lemma {:induction false} LargeSizesAreRefused(row: PlanRow, r: R.Stored)
    requires StoresRow(r, row) && row.size < 0x1_0000_0000_0000_0000
    ensures if row.size < 0x8000_0000_0000_0000 then r.rawSize == row.size
            else r.rawSize == row.size - 0x1_0000_0000_0000_0000 < 0 && !R.Readable(r)
  {
  }

  /** What is offered over a persisted plan, the plan itself left available: a row of the path that is unblocked,
      reversible and to be quarantined, with the risk and rule of the offer. */
  lemma {:induction false} OfferedIsAvailableInPlan(plan: seq<PlanRow>, stored: seq<R.Stored>, root: Option<Path>,
                                                    max: Risk, all: seq<R.PlanCandidate>, c: R.PlanCandidate)
    requires PersistedFrom(plan, stored) && R.ReadRows(stored, root).Ok?
    requires R.Complete(R.ReadRows(stored, root).value, max, all) && c in all
    ensures exists k: nat :: k < |plan| && plan[k].row.target == Payload(c.path)
              && !plan[k].row.blocked && plan[k].row.reversible && plan[k].row.action == Quarantine
              && plan[k].row.risk == c.risk && plan[k].row.ruleId == c.ruleId
  {
    var ps := R.ReadRows(stored, root).value;
    R.ReadRowsSays(stored, root);
    var rep :| R.Represents(ps, c.path, rep) && c.id == rep.id && c.ruleId == rep.ruleId
               && c.category == rep.category && c.risk == rep.risk;
    var r :| r in stored && Within(root, r.target) && R.Readable(r) && rep == R.Read(r);
    var k: nat :| k < |plan| && StoresRow(r, plan[k]);
    assert R.Permissive(rep);
  }

  /** The stored rows carry subtree sums. */
  ghost predicate StoredSizes(scanRoot: Path, records: seq<S.Record>, ps: seq<R.Persisted>) {
    forall p | p in ps && p.target.Payload? ::
      scanRoot <= p.target.path && p.size == S.Allocated(records, p.target.path)
  }

  lemma {:induction false} StoredRowHasItsSize(scanRoot: Path, records: seq<S.Record>, rows: seq<PlanRow>,
                                               r: R.Stored)
    requires Measured(scanRoot, records, rows) && S.Allocated(records, scanRoot) < TWO_63 && r.target.Payload?
    requires exists k: nat :: k < |rows| && StoresRow(r, rows[k])
    ensures scanRoot <= r.target.path && r.rawSize == S.Allocated(records, r.target.path)
  {
    var k: nat :| k < |rows| && StoresRow(r, rows[k]);
    SubtreesAreSmaller(records, scanRoot, r.target.path);
  }

  lemma {:induction false} PersistedPlanHasStoredSizes(scanRoot: Path, records: seq<S.Record>, rows: seq<PlanRow>,
                                                       stored: seq<R.Stored>, root: Option<Path>)
    requires Measured(scanRoot, records, rows) && S.Allocated(records, scanRoot) < TWO_63
    requires PersistedFrom(rows, stored) && R.ReadRows(stored, root).Ok?
    ensures StoredSizes(scanRoot, records, R.ReadRows(stored, root).value)
  {
    var ps := R.ReadRows(stored, root).value;
    R.ReadRowsSays(stored, root);
    forall p | p in ps && p.target.Payload?
      ensures scanRoot <= p.target.path && p.size == S.Allocated(records, p.target.path)
    {
      var r :| r in stored && Within(root, r.target) && R.Readable(r) && p == R.Read(r);
      StoredRowHasItsSize(scanRoot, records, rows, r);
    }
  }

  function PathsOf(cs: seq<R.PlanCandidate>): (paths: seq<Path>)
    ensures |paths| == |cs|
  {
    seq(|cs|, i requires 0 <= i < |cs| => cs[i].path)
  }

  lemma {:induction false} SelectionIsSum(records: seq<S.Record>, cs: seq<R.PlanCandidate>)
    requires forall i | 0 <= i < |cs| :: cs[i].size == S.Allocated(records, cs[i].path)
    ensures R.TotalSize(cs) == Sum(records, PathsOf(cs))
  {
    if cs != [] {
      var n := |cs| - 1;
      SelectionIsSum(records, cs[..n]);
      assert PathsOf(cs)[..n] == PathsOf(cs[..n]);
    }
  }

  lemma {:induction false} OfferedAreApart(ps: seq<R.Persisted>, max: Risk, all: seq<R.PlanCandidate>,
                                           c: R.PlanCandidate, d: R.PlanCandidate)
    requires R.Complete(ps, max, all) && c in all && d in all && c.id != d.id
    ensures !Overlap(c.path, d.path)
  {
    var i :| 0 <= i < |all| && all[i] == c;
    var j :| 0 <= j < |all| && all[j] == d;
    assert c.path != d.path;
    assert R.Offers(ps, max, c) && R.Offers(ps, max, d);
    var q :| R.Of(ps, q, c.path);
    var r :| R.Of(ps, r, d.path);
    assert !StrictlyAbove(c.path, d.path) && !StrictlyAbove(d.path, c.path);
  }

  lemma {:induction false} SelectionFits(scanRoot: Path, records: seq<S.Record>, ps: seq<R.Persisted>, max: Risk,
                                         all: seq<R.PlanCandidate>, ids: seq<int>, selected: seq<R.PlanCandidate>)
    requires StoredSizes(scanRoot, records, ps) && R.Complete(ps, max, all)
    requires R.Distinct(ids) && |selected| == |ids|
    requires forall i | 0 <= i < |ids| :: selected[i] in all && selected[i].id == ids[i]
    ensures R.TotalSize(selected) <= S.Allocated(records, scanRoot)
  {
    forall i | 0 <= i < |selected|
      ensures scanRoot <= selected[i].path && selected[i].size == S.Allocated(records, selected[i].path)
    {
      assert R.Offers(ps, max, selected[i]);
      var q :| R.Of(ps, q, selected[i].path) && q.size == selected[i].size;
    }
    var paths := PathsOf(selected);
    forall i, j | 0 <= i < j < |paths| ensures !Overlap(paths[i], paths[j]) {
      OfferedAreApart(ps, max, all, selected[i], selected[j]);
    }
    SelectionIsSum(records, selected);
    ApartPathsAddUp(records, scanRoot, paths);
  }

  /** From the scan to the recommendation: for every persisted plan, root filter, threshold and limit, and
      whatever ids are recommended, an accepted selection is no larger than the scan root, and its checked
      sum succeeds. */
  lemma {:induction false} SelectionNeverDoubleCounts(
    scanRoot: Path, records: seq<S.Record>, q: PlanQuery, plan: seq<PlanRow>, evidence: Evidence,
    stored: seq<R.Stored>, root: Option<Path>, max: Risk, limit: nat,
    all: seq<R.PlanCandidate>, current: seq<R.PlanCandidate>, ids: seq<int>, selected: seq<R.PlanCandidate>)
    requires SizedByScan(scanRoot, records, q.items) && S.Allocated(records, scanRoot) < TWO_63 && Planned(q, plan)
    requires PersistedFrom(EnrichAll(plan, evidence, q.max), stored) && R.ReadRows(stored, root).Ok?
    requires R.Complete(R.ReadRows(stored, root).value, max, all) && R.Largest(all, limit, current)
    requires R.Acceptable(current, ids) && |selected| == |ids|
    requires forall i | 0 <= i < |ids| :: selected[i] in current && selected[i].id == ids[i]
    ensures R.CheckedTotal(selected) == Some(R.TotalSize(selected))
    ensures R.TotalSize(selected) <= S.Allocated(records, scanRoot)
  {
    PlanIsMeasured(scanRoot, records, q, plan, evidence);
    PersistedPlanHasStoredSizes(scanRoot, records, EnrichAll(plan, evidence, q.max), stored, root);
    forall i | 0 <= i < |selected| ensures selected[i] in all {
      assert selected[i] in multiset(current) && selected[i] in multiset(all);
    }
    SelectionFits(scanRoot, records, R.ReadRows(stored, root).value, max, all, ids, selected);
  }
}
