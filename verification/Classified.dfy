/** From classification rows to the facts of each path, and to the observation an AI provider sees. */
module Classified {
  import opened Base
  import opened Order
  import opened Observation
  import opened Rules
  import opened Hierarchy
  import opened Planning
  import opened Authority

  const MAX_LABELS_PER_CANDIDATE := 32

  datatype ClassRow = ClassRow(
    entryId: int,
    path: Path,
    tag: Bytes,
    rawSize: int,
    maxMtime: Option<int>,
    observedAt: int)

  function RowSize(r: ClassRow): nat {
    if r.rawSize < 0 then 0 else r.rawSize
  }

  function FirstLabels(labels: seq<Bytes>): seq<Bytes> {
    if |labels| <= MAX_LABELS_PER_CANDIDATE then labels else labels[..MAX_LABELS_PER_CANDIDATE]
  }

  // What the rows of a path say

  predicate RowOf(rows: seq<ClassRow>, r: ClassRow, p: Path) {
    r in rows && r.path == p
  }

  /** Lowest entry id, largest size, newest modification, earliest observation, all the labels. */
  ghost predicate Gathers(rows: seq<ClassRow>, p: Path, item: Indexed) {
    && item.path == p
    && (forall r | RowOf(rows, r, p) ::
          item.entryId <= r.entryId && item.observedAt <= r.observedAt && RowSize(r) <= item.size)
    && (exists r :: RowOf(rows, r, p) && r.entryId == item.entryId)
    && (exists r :: RowOf(rows, r, p) && r.observedAt == item.observedAt)
    && (exists r :: RowOf(rows, r, p) && RowSize(r) == item.size)
    && (forall r | RowOf(rows, r, p) && r.maxMtime.Some? ::
          item.maxMtime.Some? && r.maxMtime.value <= item.maxMtime.value)
    && (exists r :: RowOf(rows, r, p) && r.maxMtime == item.maxMtime)
    && (forall t :: t in item.labels <==> exists r :: RowOf(rows, r, p) && r.tag == t)
  }

  // merge_candidate

  function FirstSeen(r: ClassRow): Indexed {
    Indexed(r.entryId, r.path, [r.tag], RowSize(r), r.maxMtime, r.observedAt)
  }

  function Merged(item: Indexed, r: ClassRow): Indexed {
    Indexed(
      if r.entryId < item.entryId then r.entryId else item.entryId,
      item.path,
      item.labels + [r.tag],
      if RowSize(r) > item.size then RowSize(r) else item.size,
      Later(item.maxMtime, r.maxMtime),
      if r.observedAt < item.observedAt then r.observedAt else item.observedAt)
  }

  /** What is known of a path after the given rows. */
  function Gathered(rows: seq<ClassRow>, p: Path): Option<Indexed> {
    if rows == [] then None
    else
      var r, before := rows[|rows| - 1], Gathered(rows[..|rows| - 1], p);
      if r.path != p then before else Some(if before.None? then FirstSeen(r) else Merged(before.value, r))
  }

  /** The facts of a path: what its rows say, with the labels sorted, without repetition, and capped. */
  predicate FactsOf(rows: seq<ClassRow>, p: Path, item: Indexed) {
    var g := Gathered(rows, p);
    g.Some? && item == g.value.(labels := FirstLabels(Ascend(g.value.labels)))
  }

  /** The items are the facts of all classified paths. */
  ghost predicate Loaded(rows: seq<ClassRow>, items: seq<Indexed>) {
    && (forall j | 0 <= j < |items| :: FactsOf(rows, items[j].path, items[j]))
    && (forall r | r in rows :: exists l :: 0 <= l < |items| && items[l].path == r.path)
  }

  method GroupRows(rows: seq<ClassRow>) returns (grouped: map<Path, Indexed>)
    ensures forall p :: p in grouped <==> Gathered(rows, p).Some?
    ensures forall p | p in grouped :: grouped[p] == Gathered(rows, p).value
  {
    grouped := map[];
    for n := 0 to |rows|
      invariant forall p :: p in grouped <==> Gathered(rows[..n], p).Some?
      invariant forall p | p in grouped :: grouped[p] == Gathered(rows[..n], p).value
    {
      var r := rows[n];
      assert rows[..n + 1][..|rows[..n + 1]| - 1] == rows[..n];
      grouped := grouped[r.path := if r.path in grouped then Merged(grouped[r.path], r) else FirstSeen(r)];
    }
    assert rows[..|rows|] == rows;
  }

  /** `load_candidates`: one item per classified path; their order is left open. */
  method LoadCandidates(rows: seq<ClassRow>) returns (items: seq<Indexed>)
    ensures Loaded(rows, items)
    ensures forall k, l | 0 <= k < l < |items| :: items[k].path != items[l].path
  {
    var grouped := GroupRows(rows);
    forall p | p in grouped ensures grouped[p].path == p {
      GatheredSays(rows, p);
    }
    items := [];
    var todo := grouped.Keys;
    while todo != {}
      invariant todo <= grouped.Keys
      invariant forall i | 0 <= i < |items| ::
                  items[i].path in grouped.Keys - todo && FactsOf(rows, items[i].path, items[i])
      invariant forall p | p in grouped.Keys - todo :: exists k :: 0 <= k < |items| && items[k].path == p
      invariant forall k, l | 0 <= k < l < |items| :: items[k].path != items[l].path
    {
      var p :| p in todo;
      var raw := grouped[p];
      var item := raw.(labels := FirstLabels(Ascend(raw.labels)));
      ghost var before, done := items, grouped.Keys - todo;
      items := items + [item];
      todo := todo - {p};
      forall q | q in grouped.Keys - todo ensures exists k :: 0 <= k < |items| && items[k].path == q {
        if q == p {
          assert items[|before|].path == q;
        } else {
          assert q in done;
          var k :| 0 <= k < |before| && before[k].path == q;
          assert items[k].path == q;
        }
      }
    }
    forall r | r in rows ensures exists k :: 0 <= k < |items| && items[k].path == r.path {
      GatheredSays(rows, r.path);
      assert RowOf(rows, r, r.path);
      assert r.path in grouped.Keys - todo;
    }
  }

  /** What the merging loop keeps of a path is what its rows say of it. */
  lemma {:induction false} GatheredSays(rows: seq<ClassRow>, p: Path)
    ensures Gathered(rows, p).Some? <==> exists r :: RowOf(rows, r, p)
    ensures Gathered(rows, p).Some? ==> Gathers(rows, p, Gathered(rows, p).value)
  {
    if rows != [] {
      var n, a := |rows| - 1, rows[..|rows| - 1];
      var r, before := rows[n], Gathered(a, p);
      GatheredSays(a, p);
      assert rows == a + [r] && forall x :: RowOf(rows, x, p) <==> RowOf(a, x, p) || (x == r && r.path == p);
      if r.path != p {
        if before.Some? { OtherRow(a, r, p, before.value); }
      } else if before.None? {
        FirstRow(a, r);
      } else {
        NextRow(a, r, before.value);
      }
    }
  }

  lemma {:induction false} FirstRow(a: seq<ClassRow>, r: ClassRow)
    requires forall x :: !RowOf(a, x, r.path)
    ensures Gathers(a + [r], r.path, FirstSeen(r))
  {
    forall x ensures RowOf(a + [r], x, r.path) <==> x == r {
      assert !RowOf(a, x, r.path);
    }
  }

  lemma {:induction false} NextRow(a: seq<ClassRow>, r: ClassRow, item: Indexed)
    requires Gathers(a, r.path, item)
    ensures Gathers(a + [r], r.path, Merged(item, r))
  {
    assert forall x :: RowOf(a + [r], x, r.path) <==> RowOf(a, x, r.path) || x == r;
    assert RowOf(a + [r], r, r.path);
  }

  lemma {:induction false} OtherRow(a: seq<ClassRow>, r: ClassRow, p: Path, item: Indexed)
    requires r.path != p && Gathers(a, p, item)
    ensures Gathers(a + [r], p, item)
  {
    assert forall x :: RowOf(a + [r], x, p) <==> RowOf(a, x, p);
  }

  // Independence from the order of the rows

  ghost predicate SameClassRows(a: seq<ClassRow>, b: seq<ClassRow>) {
    forall r :: r in a <==> r in b
  }

  /** What one list of rows says, the same rows in another order say as well. */
  lemma {:induction false} GathersElsewhere(a: seq<ClassRow>, b: seq<ClassRow>, p: Path, item: Indexed)
    requires SameClassRows(a, b) && Gathers(a, p, item)
    ensures Gathers(b, p, item)
  {
    assert forall r :: RowOf(a, r, p) <==> RowOf(b, r, p);
  }

  lemma {:induction false} GathersIsUnique(rows: seq<ClassRow>, p: Path, a: Indexed, b: Indexed)
    requires Gathers(rows, p, a) && Gathers(rows, p, b)
    ensures a.(labels := b.labels) == b && forall t :: t in a.labels <==> t in b.labels
  {
  }

  /** The facts of a path depend on its rows only as a set. */
  lemma {:induction false} FactsIgnoreOrder(a: seq<ClassRow>, b: seq<ClassRow>, p: Path, x: Indexed, y: Indexed)
    requires SameClassRows(a, b) && FactsOf(a, p, x) && FactsOf(b, p, y)
    ensures x == y
  {
    var g, h := Gathered(a, p).value, Gathered(b, p).value;
    GatheredSays(a, p);
    GatheredSays(b, p);
    GathersElsewhere(a, b, p, g);
    GathersIsUnique(b, p, g, h);
    AscendIgnoresOrder(g.labels, h.labels);
  }

  // observation_for

  predicate ProtectedItem(item: Indexed) {
    exists l :: l in item.labels && ProtectedLabel(l)
  }

  function AgeSeconds(item: Indexed): Option<nat> {
    if item.maxMtime.None? then None
    else
      var age := SaturateI64(item.observedAt - item.maxMtime.value);
      if age >= 0 then Some(age) else None
  }

  /** `privacy` is how a path is shown in each mode. */
  function ObservationFor(scanId: int, item: Indexed, privacy: (Path, PathMode) -> Bytes, mode: PathMode,
                          maxRisk: Bytes): Observed
  {
    Observed(
      scanId,
      Text("scan-") + SignedDecimal(scanId) + Text(":entry-") + SignedDecimal(item.entryId),
      privacy(item.path, mode),
      mode,
      item.size,
      AgeSeconds(item),
      item.labels,
      if |item.labels| == 1 then Some(item.labels[0]) else None,
      None,
      ProtectedItem(item),
      maxRisk,
      None)
  }

  /** The observation of a path, and so its canonical bytes, depends on the classification rows only as a
      set: neither their order nor their repetition shows. */
  lemma {:induction false} ObservationIgnoresRowOrder(a: seq<ClassRow>, b: seq<ClassRow>, p: Path, x: Indexed,
                                                      y: Indexed,
                                   scanId: int, privacy: (Path, PathMode) -> Bytes, mode: PathMode, maxRisk: Bytes)
    requires SameClassRows(a, b) && FactsOf(a, p, x) && FactsOf(b, p, y)
    ensures ObservationFor(scanId, x, privacy, mode, maxRisk) == ObservationFor(scanId, y, privacy, mode, maxRisk)
  {
    FactsIgnoreOrder(a, b, p, x, y);
  }

  /** The observation of a path says what its rows say: the lowest entry, the largest size, how long before
      the earliest observation it was last modified, and whether a label is protected.  A path modified after
      that has no age. */
  lemma {:induction false} ObservationSays(rows: seq<ClassRow>, p: Path, item: Indexed, scanId: int,
                                           privacy: (Path, PathMode) -> Bytes, mode: PathMode, maxRisk: Bytes)
    requires FactsOf(rows, p, item)
    ensures var o := ObservationFor(scanId, item, privacy, mode, maxRisk);
            && o.scanId == scanId && o.path == privacy(p, mode) && o.mode == mode && o.maxRisk == maxRisk
            && o.candidateKey == Text("scan-") + SignedDecimal(scanId) + Text(":entry-") + SignedDecimal(item.entryId)
            && (exists r | RowOf(rows, r, p) :: r.entryId == item.entryId)
            && (forall r | RowOf(rows, r, p) :: item.entryId <= r.entryId && r.rawSize <= o.size)
            && (exists r | RowOf(rows, r, p) :: o.size == if r.rawSize > 0 then r.rawSize else 0)
            && (forall r | RowOf(rows, r, p) && r.maxMtime.Some? ::
                  item.maxMtime.Some? && r.maxMtime.value <= item.maxMtime.value)
            && (forall r | RowOf(rows, r, p) :: item.observedAt <= r.observedAt)
            && (o.age.Some? <==> item.maxMtime.Some? && item.maxMtime.value <= item.observedAt)
            && (o.age.Some? ==>
                 o.age.value == var age := item.observedAt - item.maxMtime.value;
                                if age > 0x7fff_ffff_ffff_ffff then 0x7fff_ffff_ffff_ffff else age)
            && o.labels == item.labels && (o.classification.Some? <==> |o.labels| == 1)
            && (o.classification.Some? ==> o.labels == [o.classification.value])
            && o.matchedRule.None? && o.adapter.None?
            && (o.protected <==> exists l :: l in o.labels && ProtectedLabel(l))
  {
    GatheredSays(rows, p);
  }

  // The cap on labels

  /** The labels are sorted, without repetition, and at most thirty-two; of more, the first are kept. */
  lemma {:induction false} CapKeepsFirst(rows: seq<ClassRow>, p: Path, item: Indexed)
    requires FactsOf(rows, p, item)
    ensures Ascending(item.labels) && |item.labels| <= 32
    ensures forall l | l in item.labels :: exists r | RowOf(rows, r, p) :: r.tag == l
    ensures forall r, l | RowOf(rows, r, p) && r.tag !in item.labels && l in item.labels :: TextLe(l, r.tag)
    ensures forall r | RowOf(rows, r, p) && r.tag !in item.labels :: |item.labels| == 32
  {
    GatheredSays(rows, p);
    var all := Ascend(Gathered(rows, p).value.labels);
    AscendSorts(Gathered(rows, p).value.labels);
    assert item.labels == FirstLabels(all);
    forall l | l in item.labels ensures exists r | RowOf(rows, r, p) :: r.tag == l {
      assert l in all && l in Gathered(rows, p).value.labels;
    }
    forall r | RowOf(rows, r, p) ensures r.tag in all {
      assert r.tag in Gathered(rows, p).value.labels;
    }
    forall r, l | RowOf(rows, r, p) && r.tag !in item.labels && l in item.labels ensures TextLe(l, r.tag) {
      assert r.tag in all;
      var i :| 0 <= i < |item.labels| && item.labels[i] == l;
      var j :| 0 <= j < |all| && all[j] == r.tag;
      assert all[i] == l && j >= |item.labels|;
    }
  }

  /** Every label the classifier can give. */
  const CLASSIFIER_LABELS: seq<Bytes> :=
    [Text("secret_material"), Text("git_repo"), Text("source_repo"), Text("cache"), Text("thumbnail_cache"),
     Text("trash"), Text("browser_profile"), Text("browser_cache"), Text("node_dependencies"),
     Text("node_cache"), Text("node_build_artifacts"), Text("python_cache"), Text("python_virtualenv"),
     Text("python_bytecode_cache"), Text("rust_cache"), Text("rust_build_artifacts"), Text("go_cache"),
     Text("gradle_cache"), Text("maven_cache"), Text("docker_data"), Text("podman_data"), Text("nix_store"),
     Text("systemd_journal"), Text("database"), Text("vm_image")]

  predicate FromClassifier(rows: seq<ClassRow>) {
    forall r | r in rows :: r.tag in CLASSIFIER_LABELS
  }

  /** Distinct texts out of a list are at most as many as the list is long. */
  lemma {:induction false} DistinctWithin(s: seq<Bytes>, pool: seq<Bytes>)
    requires Ascending(s) && forall x | x in s :: x in pool
    ensures |s| <= |pool|
  {
    if s != [] {
      assert s[0] in s;
      var k :| 0 <= k < |pool| && pool[k] == s[0];
      var rest := pool[..k] + pool[k + 1..];
      forall x | x in s[1..] ensures x in rest {
        assert x in s && x != s[0];
        var j :| 0 <= j < |pool| && pool[j] == x;
        assert x == if j < k then rest[j] else rest[j - 1];
      }
      DistinctWithin(s[1..], rest);
    }
  }

  /** The classifier has fewer labels than the cap, so the cap drops none. */
  lemma {:induction false} NoLabelIsDropped(rows: seq<ClassRow>, p: Path, item: Indexed, r: ClassRow)
    requires FromClassifier(rows) && FactsOf(rows, p, item) && RowOf(rows, r, p)
    ensures r.tag in item.labels
  {
    var labels := Gathered(rows, p).value.labels;
    GatheredSays(rows, p);
    AscendSorts(labels);
    forall x | x in Ascend(labels) ensures x in CLASSIFIER_LABELS {
      var y :| RowOf(rows, y, p) && y.tag == x;
    }
    DistinctWithin(Ascend(labels), CLASSIFIER_LABELS);
  }

  /** From the classifier to clean: a path that clean may take, after a plan with any proposals over the
      indexed facts, is not and does not contain a path the classifier gave a protected label. */
  lemma {:induction false} ClassifiedDataIsSafe(rows: seq<ClassRow>, q: PlanQuery, plan: seq<PlanRow>,
                                                evidence: Evidence, stored: seq<Input>, es: seq<Decision>,
                                                r: ClassRow, p: Path, k: nat)
    requires FromClassifier(rows) && Loaded(rows, q.items) && q.rules == BUILTIN_RULES && Planned(q, plan)
    requires SameRows(Inputs(EnrichAll(plan, evidence, q.max)), stored) && Canonical(stored, es)
    requires r in rows && ProtectedLabel(r.tag)
    requires Decides(stored, es, k, p) && !es[k].blocked
    ensures !(p <= r.path)
  {
    var item := ItemOf(rows, q.items, r);
    ProtectedLabelsAreReported();
    ProtectedDataIsSafe(q, plan, evidence, stored, es, item, r.tag, p, k);
  }

  lemma {:induction false} ItemOf(rows: seq<ClassRow>, items: seq<Indexed>, r: ClassRow) returns (item: Indexed)
    requires FromClassifier(rows) && Loaded(rows, items) && r in rows
    ensures item in items && item.path == r.path && r.tag in item.labels
  {
    var l :| 0 <= l < |items| && items[l].path == r.path;
    item := items[l];
    NoLabelIsDropped(rows, r.path, item, r);
  }
}
