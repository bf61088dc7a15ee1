/** Hierarchy canonicalization: one decision per filesystem path, and no candidate above another. */
module Rules {
  import opened Base
  import opened Order
  import opened Policy

  /** What a candidate row is about: a tool-owned pseudo-path (`adapter://...`) or a filesystem path. */
  datatype Target = Adapter(uri: Bytes) | Payload(path: Path)

  /** Why a row is blocked: a text it came with, or one of the canonicalizer's own. */
  datatype Reason = Given(text: Bytes) | NonReversibleMatch | NonExecutableMatch | BlockedMatch | OverlappingDescendant

  datatype Input = Input(
    target: Target,
    risk: Risk,
    blocked: bool,
    reason: Option<Reason>,
    reversible: bool,
    action: ActionType,
    ruleId: Bytes)

  datatype Decision = Decision(source: nat, risk: Risk, blocked: bool, reason: Option<Reason>)

  /** The root filter of the commands: adapters pass only when there is none. */
  predicate Within(root: Option<Path>, t: Target) {
    root.None? || (t.Payload? && root.value <= t.path)
  }

  // The meaning of the rows for a path

  predicate IsRow(inputs: seq<Input>, i: int, p: Path) {
    0 <= i < |inputs| && inputs[i].target == Payload(p)
  }

  /** A row that forbids cleaning its own path. */
  predicate Restrictive(row: Input) {
    row.blocked || !row.reversible || !RawFilesystemAction(row.action)
  }

  ghost predicate HasRow(inputs: seq<Input>, p: Path) {
    exists i: nat :: IsRow(inputs, i, p)
  }

  ghost predicate HasRestrictiveRow(inputs: seq<Input>, p: Path) {
    exists i: nat :: IsRow(inputs, i, p) && Restrictive(inputs[i])
  }

  predicate StrictlyAbove(p: Path, q: Path) {
    p <= q && p != q
  }

  ghost predicate HasRowBelow(inputs: seq<Input>, p: Path) {
    exists i: nat, q :: IsRow(inputs, i, q) && StrictlyAbove(p, q)
  }

  // The order in which the rows of one path are considered, strictest first

  predicate Before(inputs: seq<Input>, i: nat, j: nat)
    requires i < |inputs| && j < |inputs|
  {
    var a, b := inputs[i], inputs[j];
    if a.risk != b.risk then a.risk.Rank() > b.risk.Rank()
    else if a.blocked != b.blocked then a.blocked
    else if a.reversible != b.reversible then b.reversible
    else if RawFilesystemAction(a.action) != RawFilesystemAction(b.action) then RawFilesystemAction(b.action)
    else if a.ruleId != b.ruleId then TextLe(a.ruleId, b.ruleId)
    else i <= j
  }

  lemma {:induction false} BeforeTotal(inputs: seq<Input>, i: nat, j: nat)
    requires i < |inputs| && j < |inputs|
    ensures Before(inputs, i, j) || Before(inputs, j, i)
    ensures Before(inputs, i, j) && Before(inputs, j, i) ==> i == j
  {
    TextLeTotal(inputs[i].ruleId, inputs[j].ruleId);
    if TextLe(inputs[i].ruleId, inputs[j].ruleId) && TextLe(inputs[j].ruleId, inputs[i].ruleId) {
      TextLeAntisymmetric(inputs[i].ruleId, inputs[j].ruleId);
    }
  }

  lemma {:induction false} BeforeTransitive(inputs: seq<Input>, i: nat, j: nat, k: nat)
    requires i < |inputs| && j < |inputs| && k < |inputs|
    requires Before(inputs, i, j) && Before(inputs, j, k)
    ensures Before(inputs, i, k)
  {
    var a, b, c := inputs[i].ruleId, inputs[j].ruleId, inputs[k].ruleId;
    if TextLe(a, b) && TextLe(b, c) {
      TextLeTransitive(a, b, c);
      if a == c { TextLeAntisymmetric(a, b); }
    }
  }

  predicate Indexes(inputs: seq<Input>, s: seq<nat>) {
    forall k | 0 <= k < |s| :: s[k] < |inputs|
  }

  predicate Ordered(inputs: seq<Input>, s: seq<nat>)
    requires Indexes(inputs, s)
  {
    forall k, l | 0 <= k < l < |s| :: Before(inputs, s[k], s[l])
  }

  function InsertIndex(inputs: seq<Input>, i: nat, s: seq<nat>): (r: seq<nat>)
    requires i < |inputs| && Indexes(inputs, s)
    ensures Indexes(inputs, r) && multiset(r) == multiset(s) + multiset{i}
  {
    if s == [] then [i]
    else if Before(inputs, i, s[0]) then [i] + s
    else
      assert s == [s[0]] + s[1..];
      [s[0]] + InsertIndex(inputs, i, s[1..])
  }

  /** `sort_by` on the indexes of one group. */
  function SortIndexes(inputs: seq<Input>, s: seq<nat>): (r: seq<nat>)
    requires Indexes(inputs, s)
    ensures Indexes(inputs, r) && multiset(r) == multiset(s)
  {
    if s == [] then []
    else
      assert s == [s[0]] + s[1..];
      InsertIndex(inputs, s[0], SortIndexes(inputs, s[1..]))
  }

  lemma {:induction false} InsertKeepsOrder(inputs: seq<Input>, i: nat, s: seq<nat>)
    requires i < |inputs| && Indexes(inputs, s) && Ordered(inputs, s)
    ensures Ordered(inputs, InsertIndex(inputs, i, s))
  {
    if s != [] {
      if Before(inputs, i, s[0]) {
        forall l | 0 <= l < |s| ensures Before(inputs, i, s[l]) {
          if l > 0 { BeforeTransitive(inputs, i, s[0], s[l]); }
        }
      } else {
        BeforeTotal(inputs, i, s[0]);
        var r := InsertIndex(inputs, i, s[1..]);
        InsertKeepsOrder(inputs, i, s[1..]);
        forall l | 0 <= l < |r| ensures Before(inputs, s[0], r[l]) {
          assert r[l] in multiset(r);
          assert r[l] == i || r[l] in s[1..];
        }
      }
    }
  }

  lemma {:induction false} SortIndexesOrders(inputs: seq<Input>, s: seq<nat>)
    requires Indexes(inputs, s)
    ensures Ordered(inputs, SortIndexes(inputs, s))
  {
    if s != [] {
      SortIndexesOrders(inputs, s[1..]);
      InsertKeepsOrder(inputs, s[0], SortIndexes(inputs, s[1..]));
    }
  }

  // The decisions, row by row

  /** Row `i` speaks for its path: it comes before every other row of that path. */
  ghost predicate Speaks(inputs: seq<Input>, i: int) {
    && 0 <= i < |inputs|
    && inputs[i].target.Payload?
    && forall j: nat | IsRow(inputs, j, inputs[i].target.path) :: Before(inputs, i, j)
  }

  ghost predicate Selected(inputs: seq<Input>, i: int) {
    0 <= i < |inputs| && (inputs[i].target.Adapter? || Speaks(inputs, i))
  }

  /** The first text among the rows of `p`, strictest row first. */
  ghost predicate FirstReason(inputs: seq<Input>, p: Path, reason: Option<Reason>) {
    match reason
    case None => forall j: nat | IsRow(inputs, j, p) :: inputs[j].reason.None?
    case Some(_) =>
      exists i: nat :: IsRow(inputs, i, p) && inputs[i].reason == reason
        && forall j: nat | IsRow(inputs, j, p) && inputs[j].reason.Some? :: Before(inputs, i, j)
  }

  ghost predicate GroupReason(inputs: seq<Input>, p: Path, reason: Option<Reason>) {
    exists first :: FirstReason(inputs, p, first) &&
      reason == if first.Some? then first
                else if exists j: nat :: IsRow(inputs, j, p) && !inputs[j].reversible then Some(NonReversibleMatch)
                else if exists j: nat :: IsRow(inputs, j, p) && !RawFilesystemAction(inputs[j].action) then
                  Some(NonExecutableMatch)
                else Some(BlockedMatch)
  }

  /** What a decision says, without the words of how it is computed. */
  ghost predicate Rightful(inputs: seq<Input>, d: Decision) {
    && Selected(inputs, d.source)
    && var row := inputs[d.source];
       match row.target
       case Adapter(_) => d == Decision(d.source, row.risk, row.blocked, row.reason)
       case Payload(p) =>
         && d.risk == row.risk
         && (d.blocked <==> HasRestrictiveRow(inputs, p) || HasRowBelow(inputs, p))
         && (HasRestrictiveRow(inputs, p) ==> GroupReason(inputs, p, d.reason))
         && (!HasRestrictiveRow(inputs, p) ==>
              d.reason == if HasRowBelow(inputs, p) then Some(OverlappingDescendant) else None)
  }

  /** The result: one rightful decision per selected row, in the order of the rows. */
  ghost predicate Canonical(inputs: seq<Input>, ds: seq<Decision>) {
    && (forall k | 0 <= k < |ds| :: Rightful(inputs, ds[k]))
    && Increasing(ds)
    && (forall i: nat | Selected(inputs, i) :: exists k :: 0 <= k < |ds| && ds[k].source == i)
  }

  // canonicalize_hierarchy

  datatype Entry = Entry(path: Option<Path>, decision: Decision)

  /** The decision for one group before anything is known of the other paths. */
  ghost predicate OwnDecision(inputs: seq<Input>, p: Path, d: Decision) {
    && Speaks(inputs, d.source)
    && inputs[d.source].target == Payload(p)
    && d.risk == inputs[d.source].risk
    && (d.blocked <==> HasRestrictiveRow(inputs, p))
    && (d.blocked ==> GroupReason(inputs, p, d.reason))
    && (!d.blocked ==> d.reason.None?)
  }

  ghost predicate EntryOk(inputs: seq<Input>, e: Entry) {
    match e.path
    case None =>
      e.decision.source < |inputs| && inputs[e.decision.source].target.Adapter? && Rightful(inputs, e.decision)
    case Some(p) => OwnDecision(inputs, p, e.decision)
  }

  ghost predicate EntriesOk(inputs: seq<Input>, es: seq<Entry>) {
    && (forall k | 0 <= k < |es| :: EntryOk(inputs, es[k]))
    && (forall k, l | 0 <= k < l < |es| :: es[k].decision.source != es[l].decision.source)
  }

  /** The rows of `p` among the first `n`, in order. */
  predicate GroupIs(inputs: seq<Input>, n: nat, p: Path, s: seq<nat>) {
    && Indexes(inputs, s)
    && (forall k | 0 <= k < |s| :: s[k] < n && IsRow(inputs, s[k], p))
    && (forall i: nat | i < n && IsRow(inputs, i, p) :: i in s)
  }

  /** `find_map`: the first text in the sorted group. */
  method FindReason(inputs: seq<Input>, p: Path, s: seq<nat>) returns (reason: Option<Reason>)
    requires GroupIs(inputs, |inputs|, p, s) && Ordered(inputs, s)
    ensures FirstReason(inputs, p, reason)
  {
    for k := 0 to |s|
      invariant forall l | 0 <= l < k :: inputs[s[l]].reason.None?
    {
      if inputs[s[k]].reason.Some? {
        forall j: nat | IsRow(inputs, j, p) && inputs[j].reason.Some? ensures Before(inputs, s[k], j) {
          var l :| 0 <= l < |s| && s[l] == j;
          if l == k { BeforeTotal(inputs, j, j); }
        }
        return inputs[s[k]].reason;
      }
    }
    return None;
  }

  lemma {:induction false} SortedGroup(inputs: seq<Input>, p: Path, group: seq<nat>)
    requires GroupIs(inputs, |inputs|, p, group) && group != []
    ensures var sorted := SortIndexes(inputs, group);
            GroupIs(inputs, |inputs|, p, sorted) && sorted != [] && Ordered(inputs, sorted) && Speaks(inputs, sorted[0])
  {
    var sorted := SortIndexes(inputs, group);
    SortIndexesOrders(inputs, group);
    forall i: nat ensures i in group <==> i in sorted {
      assert i in group <==> i in multiset(group);
      assert i in sorted <==> i in multiset(sorted);
    }
    assert group[0] in group;
    assert forall k | 0 <= k < |sorted| :: sorted[k] in sorted;
    forall j: nat | IsRow(inputs, j, p) ensures Before(inputs, sorted[0], j) {
      var l :| 0 <= l < |sorted| && sorted[l] == j;
      if l == 0 { BeforeTotal(inputs, j, j); }
    }
  }

  /** The passes over a sorted group: highest risk, and which restrictions occur. */
  method Summarize(inputs: seq<Input>, p: Path, sorted: seq<nat>)
    returns (risk: Risk, anyBlocked: bool, anyNonReversible: bool, anyNonExecutable: bool)
    requires GroupIs(inputs, |inputs|, p, sorted) && sorted != [] && Speaks(inputs, sorted[0])
    ensures risk == inputs[sorted[0]].risk
    ensures anyBlocked <==> exists j: nat :: IsRow(inputs, j, p) && inputs[j].blocked
    ensures anyNonReversible <==> exists j: nat :: IsRow(inputs, j, p) && !inputs[j].reversible
    ensures anyNonExecutable <==> exists j: nat :: IsRow(inputs, j, p) && !RawFilesystemAction(inputs[j].action)
  {
    risk, anyBlocked, anyNonReversible, anyNonExecutable := inputs[sorted[0]].risk, false, false, false;
    for k := 0 to |sorted|
      invariant risk == inputs[sorted[0]].risk
      invariant anyBlocked <==> exists l :: 0 <= l < k && inputs[sorted[l]].blocked
      invariant anyNonReversible <==> exists l :: 0 <= l < k && !inputs[sorted[l]].reversible
      invariant anyNonExecutable <==> exists l :: 0 <= l < k && !RawFilesystemAction(inputs[sorted[l]].action)
    {
      assert Before(inputs, sorted[0], sorted[k]);
      risk := MaxRisk(risk, inputs[sorted[k]].risk);
      anyBlocked := anyBlocked || inputs[sorted[k]].blocked;
      anyNonReversible := anyNonReversible || !inputs[sorted[k]].reversible;
      anyNonExecutable := anyNonExecutable || !RawFilesystemAction(inputs[sorted[k]].action);
    }
    assert forall l | 0 <= l < |sorted| :: IsRow(inputs, sorted[l], p);
    assert forall j: nat | IsRow(inputs, j, p) :: exists l :: 0 <= l < |sorted| && sorted[l] == j;
  }

  /** One group: representative, risk, own restrictions, reason. */
  method DecideGroup(inputs: seq<Input>, p: Path, group: seq<nat>) returns (d: Decision)
    requires GroupIs(inputs, |inputs|, p, group) && group != []
    ensures OwnDecision(inputs, p, d)
  {
    SortedGroup(inputs, p, group);
    var sorted := SortIndexes(inputs, group);
    var risk, anyBlocked, anyNonReversible, anyNonExecutable := Summarize(inputs, p, sorted);
    var blocked := anyBlocked || anyNonReversible || anyNonExecutable;
    var reason: Option<Reason> := None;
    if blocked {
      var first := FindReason(inputs, p, sorted);
      reason := if first.Some? then first
                else if anyNonReversible then Some(NonReversibleMatch)
                else if anyNonExecutable then Some(NonExecutableMatch)
                else Some(BlockedMatch);
      assert GroupReason(inputs, p, reason);
    }
    d := Decision(sorted[0], risk, blocked, reason);
  }

  /** The parent walk of one path marks every entry strictly above it. */
  method MarkAncestors(p: Path, entries: map<Path, nat>, marked: set<nat>) returns (r: set<nat>)
    ensures forall k :: k in r <==> k in marked || exists q :: q in entries && StrictlyAbove(q, p) && entries[q] == k
  {
    r := marked;
    var at := p;
    while at != []
      invariant at <= p
      invariant forall k :: k in r <==>
                  k in marked ||
                  exists q :: q in entries && StrictlyAbove(q, p) && !StrictlyAbove(q, at) && entries[q] == k
      decreases |at|
    {
      var parent := Parent(at);
      assert forall q :: StrictlyAbove(q, at) <==> q == parent || StrictlyAbove(q, parent);
      assert StrictlyAbove(parent, p) && !StrictlyAbove(parent, parent);
      if parent in entries {
        r := r + {entries[parent]};
      }
      at := parent;
    }
  }

  /** Decisions in the order of their rows. */
  function InsertDecision(d: Decision, ds: seq<Decision>): (r: seq<Decision>)
    ensures multiset(r) == multiset(ds) + multiset{d}
  {
    if ds == [] then [d]
    else if d.source <= ds[0].source then [d] + ds
    else
      assert ds == [ds[0]] + ds[1..];
      [ds[0]] + InsertDecision(d, ds[1..])
  }

  predicate Increasing(ds: seq<Decision>) {
    forall k, l | 0 <= k < l < |ds| :: ds[k].source < ds[l].source
  }

  lemma {:induction false} InsertDecisionIncreasing(d: Decision, ds: seq<Decision>)
    requires Increasing(ds) && forall x | x in ds :: x.source != d.source
    ensures Increasing(InsertDecision(d, ds))
  {
    if ds == [] {
    } else if d.source <= ds[0].source {
      assert ds[0] in ds;
    } else {
      var rest := InsertDecision(d, ds[1..]);
      InsertDecisionIncreasing(d, ds[1..]);
      forall l | 0 <= l < |rest| ensures ds[0].source < rest[l].source {
        assert rest[l] in multiset(rest);
        assert rest[l] == d || rest[l] in ds[1..];
      }
      assert InsertDecision(d, ds) == [ds[0]] + rest;
    }
  }

  /** Every selected row has its entry. */
  lemma {:induction false} EntryOf(inputs: seq<Input>, adapters: seq<Entry>, decided: seq<Entry>,
                                   i: nat) returns (l: nat)
    requires Selected(inputs, i) && EntriesOk(inputs, decided) && adapters <= decided
    requires forall i | 0 <= i < |inputs| && inputs[i].target.Adapter? ::
               exists k :: 0 <= k < |adapters| && adapters[k].decision.source == i
    requires forall p | HasRow(inputs, p) :: exists k :: 0 <= k < |decided| && decided[k].path == Some(p)
    ensures l < |decided| && decided[l].decision.source == i
  {
    if inputs[i].target.Adapter? {
      l :| 0 <= l < |adapters| && adapters[l].decision.source == i;
      assert decided[l] == adapters[l];
    } else {
      var p := inputs[i].target.path;
      assert IsRow(inputs, i, p) && HasRow(inputs, p);
      l :| 0 <= l < |decided| && decided[l].path == Some(p);
      assert EntryOk(inputs, decided[l]);
      OneSpeaker(inputs, i, decided[l].decision.source);
    }
  }

  /** The final sort by row. */
  method InRowOrder(canonical: seq<Entry>) returns (decisions: seq<Decision>)
    requires forall k, l | 0 <= k < l < |canonical| :: canonical[k].decision.source != canonical[l].decision.source
    ensures forall x :: x in decisions <==> exists l :: 0 <= l < |canonical| && canonical[l].decision == x
    ensures Increasing(decisions)
  {
    decisions := [];
    for k := 0 to |canonical|
      invariant forall x :: x in decisions <==> exists l :: 0 <= l < k && canonical[l].decision == x
      invariant Increasing(decisions)
    {
      var d := canonical[k].decision;
      forall x | x in decisions ensures x.source != d.source {
        var l :| 0 <= l < k && canonical[l].decision == x;
      }
      InsertDecisionIncreasing(d, decisions);
      var next := InsertDecision(d, decisions);
      forall x ensures x in next <==> x in decisions || x == d {
        assert x in next <==> x in multiset(next);
        assert x in decisions <==> x in multiset(decisions);
      }
      decisions := next;
    }
  }

  /** `canonicalize_hierarchy`. */
  method CanonicalizeHierarchy(inputs: seq<Input>) returns (decisions: seq<Decision>)
    ensures Canonical(inputs, decisions)
  {
    var adapters, groups := Partition(inputs);
    var decided := DecideGroups(inputs, adapters, groups);
    var canonical := SuppressAncestors(inputs, decided);
    forall k, l | 0 <= k < l < |canonical| ensures canonical[k].decision.source != canonical[l].decision.source {
      assert decided[k].decision.source != decided[l].decision.source;
    }
    decisions := InRowOrder(canonical);
    forall i: nat | Selected(inputs, i) ensures exists k :: 0 <= k < |decisions| && decisions[k].source == i {
      var l := EntryOf(inputs, adapters, decided, i);
      assert canonical[l].decision in decisions;
    }
    forall k | 0 <= k < |decisions| ensures Rightful(inputs, decisions[k]) {
      assert decisions[k] in decisions;
    }
  }

  /** The adapter rows among the first `n`, each with its entry. */
  ghost predicate AdaptersUpTo(inputs: seq<Input>, n: nat, canonical: seq<Entry>)
    requires n <= |inputs|
  {
    && EntriesOk(inputs, canonical)
    && (forall k | 0 <= k < |canonical| :: canonical[k].path.None? && canonical[k].decision.source < n)
    && (forall i | 0 <= i < n && inputs[i].target.Adapter? ::
          exists k :: 0 <= k < |canonical| && canonical[k].decision.source == i)
  }

  /** The paths among the first `n` rows, each with its rows. */
  ghost predicate GroupsUpTo(inputs: seq<Input>, n: nat, groups: map<Path, seq<nat>>)
    requires n <= |inputs|
  {
    && (forall p | p in groups :: groups[p] != [] && GroupIs(inputs, n, p, groups[p]))
    && (forall i, p | 0 <= i < n && IsRow(inputs, i, p) :: p in groups)
  }

  lemma {:induction false} OneMoreAdapter(inputs: seq<Input>, n: nat, canonical: seq<Entry>)
    requires n < |inputs| && AdaptersUpTo(inputs, n, canonical) && inputs[n].target.Adapter?
    ensures var row := inputs[n];
            AdaptersUpTo(inputs, n + 1, canonical + [Entry(None, Decision(n, row.risk, row.blocked, row.reason))])
  {
    var row := inputs[n];
    var more := canonical + [Entry(None, Decision(n, row.risk, row.blocked, row.reason))];
    assert forall k | 0 <= k < |canonical| :: more[k] == canonical[k];
    assert more[|canonical|].decision.source == n;
    assert EntryOk(inputs, more[|canonical|]);
  }

  lemma {:induction false} OneMoreGroupRow(inputs: seq<Input>, n: nat, groups: map<Path, seq<nat>>, p: Path)
    requires n < |inputs| && GroupsUpTo(inputs, n, groups) && inputs[n].target == Payload(p)
    ensures GroupsUpTo(inputs, n + 1, groups[p := (if p in groups then groups[p] else []) + [n]])
  {
    var group := (if p in groups then groups[p] else []) + [n];
    assert GroupIs(inputs, n + 1, p, group);
  }

  /** Adapter rows pass through; filesystem rows are grouped by path. */
  method Partition(inputs: seq<Input>) returns (canonical: seq<Entry>, groups: map<Path, seq<nat>>)
    ensures EntriesOk(inputs, canonical) && (forall k | 0 <= k < |canonical| :: canonical[k].path.None?)
    ensures forall i | 0 <= i < |inputs| && inputs[i].target.Adapter? ::
              exists k :: 0 <= k < |canonical| && canonical[k].decision.source == i
    ensures forall p :: p in groups <==> HasRow(inputs, p)
    ensures forall p | p in groups :: groups[p] != [] && GroupIs(inputs, |inputs|, p, groups[p])
  {
    canonical, groups := [], map[];
    for n := 0 to |inputs|
      invariant AdaptersUpTo(inputs, n, canonical) && GroupsUpTo(inputs, n, groups)
    {
      var row := inputs[n];
      match row.target
      case Adapter(_) =>
        OneMoreAdapter(inputs, n, canonical);
        canonical := canonical + [Entry(None, Decision(n, row.risk, row.blocked, row.reason))];
      case Payload(p) =>
        OneMoreGroupRow(inputs, n, groups, p);
        groups := groups[p := (if p in groups then groups[p] else []) + [n]];
    }
    forall p ensures p in groups <==> HasRow(inputs, p) {
      if p in groups { assert IsRow(inputs, groups[p][0], p); }
    }
  }

  /** One entry for each group, in any order. */
  method DecideGroups(inputs: seq<Input>, adapters: seq<Entry>,
                      groups: map<Path, seq<nat>>) returns (canonical: seq<Entry>)
    requires EntriesOk(inputs, adapters) && (forall k | 0 <= k < |adapters| :: adapters[k].path.None?)
    requires forall p | p in groups :: groups[p] != [] && GroupIs(inputs, |inputs|, p, groups[p])
    ensures EntriesOk(inputs, canonical) && adapters <= canonical
    ensures forall p | p in groups :: exists k :: 0 <= k < |canonical| && canonical[k].path == Some(p)
    ensures forall k | 0 <= k < |canonical| && canonical[k].path.Some? :: canonical[k].path.value in groups
  {
    canonical := adapters;
    var todo := groups.Keys;
    while todo != {}
      invariant todo <= groups.Keys
      invariant EntriesOk(inputs, canonical) && adapters <= canonical
      invariant forall p | p in groups.Keys - todo :: exists k :: 0 <= k < |canonical| && canonical[k].path == Some(p)
      invariant forall k | 0 <= k < |canonical| && canonical[k].path.Some? ::
                  canonical[k].path.value in groups.Keys - todo
    {
      var p :| p in todo;
      var d := DecideGroup(inputs, p, groups[p]);
      ghost var before := canonical;
      canonical := canonical + [Entry(Some(p), d)];
      assert forall k | 0 <= k < |before| :: canonical[k] == before[k];
      assert canonical[|before|].path == Some(p);
      forall k | 0 <= k < |before| ensures before[k].decision.source != d.source {
        assert EntryOk(inputs, before[k]);
      }
      todo := todo - {p};
    }
    assert forall p | p in groups :: p in groups.Keys - todo;
  }

  /** The rows of a path have one speaker. */
  lemma {:induction false} OneSpeaker(inputs: seq<Input>, i: nat, j: nat)
    requires Speaks(inputs, i) && Speaks(inputs, j) && inputs[i].target == inputs[j].target
    ensures i == j
  {
    assert IsRow(inputs, i, inputs[i].target.path) && IsRow(inputs, j, inputs[i].target.path);
    BeforeTotal(inputs, i, j);
  }

  lemma {:induction false} OneEntryPerPath(inputs: seq<Input>, canonical: seq<Entry>, k: nat, l: nat)
    requires EntriesOk(inputs, canonical) && k < |canonical| && l < |canonical|
    requires canonical[k].path.Some? && canonical[k].path == canonical[l].path
    ensures k == l
  {
    assert EntryOk(inputs, canonical[k]) && EntryOk(inputs, canonical[l]);
    OneSpeaker(inputs, canonical[k].decision.source, canonical[l].decision.source);
  }

  /** What suppression makes of one entry. */
  function Suppress(e: Entry): Entry {
    if e.decision.blocked then e
    else e.(decision := e.decision.(blocked := true, reason := Some(OverlappingDescendant)))
  }

  method IndexEntries(inputs: seq<Input>, canonical: seq<Entry>) returns (entries: map<Path, nat>)
    requires EntriesOk(inputs, canonical)
    ensures forall q | q in entries :: entries[q] < |canonical| && canonical[entries[q]].path == Some(q)
    ensures forall k | 0 <= k < |canonical| && canonical[k].path.Some? ::
              canonical[k].path.value in entries && entries[canonical[k].path.value] == k
  {
    entries := map[];
    for k := 0 to |canonical|
      invariant forall q | q in entries :: entries[q] < k && canonical[entries[q]].path == Some(q)
      invariant forall l | 0 <= l < k && canonical[l].path.Some? ::
                  canonical[l].path.value in entries && entries[canonical[l].path.value] == l
    {
      if canonical[k].path.Some? {
        forall l | 0 <= l < k ensures canonical[l].path != canonical[k].path {
          if canonical[l].path == canonical[k].path { OneEntryPerPath(inputs, canonical, k, l); }
        }
        entries := entries[canonical[k].path.value := k];
      }
    }
  }

  /** Every entry strictly above another one. */
  method FindAncestors(canonical: seq<Entry>, entries: map<Path, nat>) returns (marked: set<nat>)
    ensures forall k :: k in marked <==>
              exists p, q :: p in entries && q in entries && StrictlyAbove(q, p) && entries[q] == k
  {
    marked := {};
    var todo := entries.Keys;
    while todo != {}
      invariant todo <= entries.Keys
      invariant forall k :: k in marked <==>
                  exists p, q :: p in entries.Keys - todo && q in entries && StrictlyAbove(q, p) && entries[q] == k
    {
      var p :| p in todo;
      marked := MarkAncestors(p, entries, marked);
      todo := todo - {p};
    }
    assert entries.Keys - todo == entries.Keys;
  }

  method BlockMarked(canonical: seq<Entry>, marked: set<nat>) returns (r: seq<Entry>)
    requires forall k | k in marked :: k < |canonical|
    ensures |r| == |canonical|
    ensures forall k | 0 <= k < |r| :: r[k] == if k in marked then Suppress(canonical[k]) else canonical[k]
  {
    r := canonical;
    var todo := marked;
    while todo != {}
      invariant todo <= marked && |r| == |canonical|
      invariant forall k | 0 <= k < |r| :: r[k] == if k in marked - todo then Suppress(canonical[k]) else canonical[k]
    {
      var k :| k in todo;
      r := r[k := Suppress(r[k])];
      todo := todo - {k};
    }
  }

  /** Blocks every entry that has another one below it. */
  method SuppressAncestors(inputs: seq<Input>, canonical: seq<Entry>) returns (r: seq<Entry>)
    requires EntriesOk(inputs, canonical)
    requires forall p | HasRow(inputs, p) :: exists k :: 0 <= k < |canonical| && canonical[k].path == Some(p)
    ensures |r| == |canonical|
    ensures forall k | 0 <= k < |r| ::
              r[k].decision.source == canonical[k].decision.source && Rightful(inputs, r[k].decision)
  {
    var entries := IndexEntries(inputs, canonical);
    var marked := FindAncestors(canonical, entries);
    r := BlockMarked(canonical, marked);
    forall k | 0 <= k < |r| ensures Rightful(inputs, r[k].decision) {
      if canonical[k].path.Some? {
        var q := canonical[k].path.value;
        MarkedMeansBelow(inputs, canonical, entries, q);
        SuppressedIsRightful(inputs, q, canonical[k], k in marked);
      } else {
        assert EntryOk(inputs, canonical[k]);
        assert k !in marked;
      }
    }
  }

  lemma {:induction false} SuppressedIsRightful(inputs: seq<Input>, q: Path, e: Entry, marked: bool)
    requires e.path == Some(q) && EntryOk(inputs, e) && (marked <==> HasRowBelow(inputs, q))
    ensures Rightful(inputs, (if marked then Suppress(e) else e).decision)
  {
  }

  lemma {:induction false} MarkedMeansBelow(inputs: seq<Input>, canonical: seq<Entry>, entries: map<Path, nat>, q: Path)
    requires EntriesOk(inputs, canonical)
    requires forall p | HasRow(inputs, p) :: exists k :: 0 <= k < |canonical| && canonical[k].path == Some(p)
    requires forall p | p in entries :: entries[p] < |canonical| && canonical[entries[p]].path == Some(p)
    requires forall k | 0 <= k < |canonical| && canonical[k].path.Some? :: canonical[k].path.value in entries
    ensures HasRowBelow(inputs, q) <==> exists p :: p in entries && StrictlyAbove(q, p)
  {
    if p :| p in entries && StrictlyAbove(q, p) {
      assert EntryOk(inputs, canonical[entries[p]]);
      assert IsRow(inputs, canonical[entries[p]].decision.source, p);
    }
    if HasRowBelow(inputs, q) {
      var i: nat, p :| IsRow(inputs, i, p) && StrictlyAbove(q, p);
      assert HasRow(inputs, p);
      var k :| 0 <= k < |canonical| && canonical[k].path == Some(p);
      assert canonical[k].path.value in entries;
    }
  }
}
