/** From plan to clean: the AI pass only takes authority away, clean sees the plan as it was made, and
    protected data is never cleaned. */
module Authority {
  import opened Base
  import opened Policy
  import opened Rules
  import opened Hierarchy
  import opened Planning

  /** A proposal raises the risk or blocks; what it leaves available was available, is within the
      threshold, and has the provider's confident assent. */
  lemma {:induction false} ProposalOnlyTightens(row: Input, proposal: Proposal, max: Risk)
    ensures var r := ConservativePolicy(row, proposal, max);
            && r.target == row.target && r.reversible == row.reversible && r.action == row.action
            && row.risk.Rank() <= r.risk.Rank()
            && MapAiRisk(proposal.risk).Rank() <= r.risk.Rank()
            && (!r.blocked <==>
                 && !row.blocked && row.reversible && row.action == Quarantine
                 && proposal.action == Accept && proposal.confidence >= MIN_AI_ACTION_CONFIDENCE
                 && RiskAllows(r.risk, max))
  {
  }

  /** Two sets of rows, in whatever order and multiplicity they are stored. */
  ghost predicate SameRows(a: seq<Input>, b: seq<Input>) {
    Included(a, b) && Included(b, a)
  }

  lemma {:induction false} EnrichedRow(rows: seq<PlanRow>, evidence: Evidence, max: Risk, k: nat)
    requires k < |rows|
    ensures var a, b := Inputs(rows)[k], Inputs(EnrichAll(rows, evidence, max))[k];
            && b.target == a.target && b.reversible == a.reversible && b.action == a.action
            && a.risk.Rank() <= b.risk.Rank() && (a.blocked ==> b.blocked)
  {
  }

  lemma {:induction false} EnrichedPaths(rows: seq<PlanRow>, evidence: Evidence, max: Risk, p: Path)
    ensures forall k: nat :: IsRow(Inputs(rows), k, p) <==> IsRow(Inputs(EnrichAll(rows, evidence, max)), k, p)
    ensures HasRowBelow(Inputs(rows), p) <==> HasRowBelow(Inputs(EnrichAll(rows, evidence, max)), p)
  {
    var a, b := Inputs(rows), Inputs(EnrichAll(rows, evidence, max));
    forall k: nat, q ensures IsRow(a, k, q) <==> IsRow(b, k, q) {
      if k < |rows| { EnrichedRow(rows, evidence, max, k); }
    }
    if HasRowBelow(a, p) {
      var i: nat, q :| IsRow(a, i, q) && StrictlyAbove(p, q);
      assert IsRow(b, i, q);
    }
    if HasRowBelow(b, p) {
      var i: nat, q :| IsRow(b, i, q) && StrictlyAbove(p, q);
      assert IsRow(a, i, q);
    }
  }

  /** The AI pass keeps a plan settled. */
  lemma {:induction false} EnrichmentKeepsSettled(rows: seq<PlanRow>, evidence: Evidence, max: Risk)
    requires Settled(Inputs(rows))
    ensures Settled(Inputs(EnrichAll(rows, evidence, max)))
  {
    var a, b := Inputs(rows), Inputs(EnrichAll(rows, evidence, max));
    forall i: nat, j: nat, p | IsRow(b, i, p) && IsRow(b, j, p) ensures i == j {
      EnrichedPaths(rows, evidence, max, p);
    }
    forall i: nat, p | IsRow(b, i, p) && (Restrictive(b[i]) || HasRowBelow(b, p)) ensures b[i].blocked {
      EnrichedPaths(rows, evidence, max, p);
      EnrichedRow(rows, evidence, max, i);
      assert IsRow(a, i, p);
    }
  }

  /** A settled path has one row; every stored copy of it is that row. */
  lemma {:induction false} SettledCopies(plan: seq<Input>, stored: seq<Input>, p: Path, k: nat, j: nat)
    requires Settled(plan) && Included(stored, plan) && IsRow(plan, k, p) && IsRow(stored, j, p)
    ensures stored[j] == plan[k]
  {
    IncludedRows(stored, plan, p);
    var i: nat :| IsRow(plan, i, p) && plan[i] == stored[j];
    assert i == k;
  }

  /** Clean canonicalizes the stored plan again, in whatever order it reads it: no path's risk or block
      changes, and no path appears or disappears. */
  lemma {:induction false} CleanSeesThePlan(plan: seq<Input>, stored: seq<Input>, es: seq<Decision>, p: Path)
    requires Settled(plan) && SameRows(plan, stored) && Canonical(stored, es)
    ensures forall l: nat, k: nat | Decides(stored, es, l, p) && IsRow(plan, k, p) ::
              es[l].risk == plan[k].risk && es[l].blocked == plan[k].blocked
    ensures (exists l: nat :: Decides(stored, es, l, p)) <==> HasRow(plan, p)
  {
    forall l: nat, k: nat | Decides(stored, es, l, p) && IsRow(plan, k, p)
      ensures es[l].risk == plan[k].risk && es[l].blocked == plan[k].blocked
    {
      DecisionOfSettledPath(plan, stored, es, p, l, k);
    }
    OneDecisionPerPath(stored, es, p);
    IncludedRows(plan, stored, p);
    IncludedRows(stored, plan, p);
    if HasRow(plan, p) {
      var i: nat :| IsRow(plan, i, p);
      var j: nat :| IsRow(stored, j, p);
      assert HasRow(stored, p);
      var l :| Decides(stored, es, l, p);
      var n: nat := l;
      assert Decides(stored, es, n, p);
    }
    if l: nat :| Decides(stored, es, l, p) {
      assert IsRow(stored, es[l].source, p);
    }
  }

  lemma {:induction false} DecisionOfSettledPath(plan: seq<Input>, stored: seq<Input>, es: seq<Decision>, p: Path,
                                                 l: nat, k: nat)
    requires Settled(plan) && SameRows(plan, stored) && Canonical(stored, es)
    requires Decides(stored, es, l, p) && IsRow(plan, k, p)
    ensures es[l].risk == plan[k].risk && es[l].blocked == plan[k].blocked
  {
    ExactMeaning(stored, es, l, p);
    var j: nat :| IsRow(stored, j, p) && stored[j].risk == es[l].risk;
    SettledCopies(plan, stored, p, k, j);
    assert Rightful(stored, es[l]);
    IncludedRows(stored, plan, p);
    if HasRestrictiveRow(stored, p) {
      var i: nat :| IsRow(stored, i, p) && Restrictive(stored[i]);
      SettledCopies(plan, stored, p, k, i);
    }
    if plan[k].blocked {
      assert Restrictive(stored[j]);
    }
  }

  // The whole of run_plan

  /** What a plan is made of: the indexed paths, the root filter, the rules, the adapters' rows, the threshold
      and the time. */
  datatype PlanQuery = PlanQuery(
    items: seq<Indexed>,
    root: Option<Path>,
    rules: seq<Rule>,
    adapters: seq<PlanRow>,
    max: Risk,
    now: int)

  function Matching(q: PlanQuery): seq<PlanRow> {
    CandidateRows(q.items, q.root, q.rules, q.max, q.now)
  }

  predicate AdapterRows(rows: seq<PlanRow>) {
    forall k | 0 <= k < |rows| :: rows[k].row.target.Adapter?
  }

  /** A plan before the AI pass: the canonical result of the matching rules and the adapters' rows. */
  ghost predicate Planned(q: PlanQuery, plan: seq<PlanRow>) {
    AdapterRows(q.adapters) && exists ds :: PlannedBy(Matching(q) + q.adapters, ds, plan)
  }

  method RunPlan(q: PlanQuery, provider: Option<Provider>, limit: nat)
    returns (result: Option<seq<PlanRow>>, ghost base: seq<PlanRow>, evidence: Evidence)
    requires AdapterRows(q.adapters)
    ensures Planned(q, base)
    ensures provider.None? ==> result.Some? && evidence == map[]
    ensures provider.Some? ==> Backed(q.items, provider.value, evidence) && |evidence| <= limit
    ensures result.Some? ==> result.value == EnrichAll(base, evidence, q.max)
  {
    var rows := CollectCandidates(q.items, q.root, q.rules, q.max, q.now);
    rows := rows + q.adapters;
    var plan := CanonicalizePlan(rows);
    assert rows == Matching(q) + q.adapters;
    base := plan;
    if provider.Some? {
      result, evidence := AnalyzePlan(q.items, plan, provider.value, q.max, limit);
    } else {
      result, evidence := Some(plan), map[];
    }
  }

  lemma {:induction false} PlannedIsSettled(q: PlanQuery, plan: seq<PlanRow>)
    requires Planned(q, plan)
    ensures Settled(Inputs(plan))
  {
    var rows := Matching(q) + q.adapters;
    var ds: seq<Decision> :| PlannedBy(rows, ds, plan);
    CanonicalRowsAreSettled(Inputs(rows), ds);
  }

  /** Whatever the proposals: what clean may take from the plan with AI, it could have taken from the plan
      without, and no risk is lower; the paths are the same. */
  lemma {:induction false} AiOnlyReducesAuthority(plan: seq<PlanRow>, evidence: Evidence, max: Risk,
                               plain: seq<Input>, enriched: seq<Input>, ds: seq<Decision>, es: seq<Decision>, p: Path)
    requires Settled(Inputs(plan))
    requires SameRows(Inputs(plan), plain) && SameRows(Inputs(EnrichAll(plan, evidence, max)), enriched)
    requires Canonical(plain, ds) && Canonical(enriched, es)
    ensures (exists k: nat :: Decides(plain, ds, k, p)) <==> (exists l: nat :: Decides(enriched, es, l, p))
    ensures forall k: nat, l: nat | Decides(plain, ds, k, p) && Decides(enriched, es, l, p) ::
              ds[k].risk.Rank() <= es[l].risk.Rank() && (ds[k].blocked ==> es[l].blocked)
  {
    var a, b := Inputs(plan), Inputs(EnrichAll(plan, evidence, max));
    EnrichmentKeepsSettled(plan, evidence, max);
    CleanSeesThePlan(a, plain, ds, p);
    CleanSeesThePlan(b, enriched, es, p);
    EnrichedPaths(plan, evidence, max, p);
    assert HasRow(a, p) <==> HasRow(b, p);
    forall k: nat, l: nat | Decides(plain, ds, k, p) && Decides(enriched, es, l, p)
      ensures ds[k].risk.Rank() <= es[l].risk.Rank() && (ds[k].blocked ==> es[l].blocked)
    {
      var i: nat :| IsRow(a, i, p);
      EnrichedRow(plan, evidence, max, i);
    }
  }

  // Protected data

  predicate ProtectedLabel(l: Bytes) {
    l in SENSITIVE_LABELS || l in TOOL_LABELS
  }

  predicate ReportsAlways(rule: Rule, l: Bytes) {
    rule == Rule(rule.id, rule.risk, ReportOnly, false, [l], [], None, None, None)
  }

  lemma {:induction false} SensitiveLabelsAreReported(l: Bytes)
    requires l in SENSITIVE_LABELS
    ensures exists rule :: rule in BUILTIN_RULES && ReportsAlways(rule, l)
  {
    var n := if l == Text("database") then 15 else if l == Text("vm_image") then 16
             else if l == Text("secret_material") then 17 else if l == Text("browser_profile") then 18 else 19;
    assert ReportsAlways(BUILTIN_RULES[n], l);
  }

  lemma {:induction false} ToolLabelsAreReported(l: Bytes)
    requires l in TOOL_LABELS
    ensures exists rule :: rule in BUILTIN_RULES && ReportsAlways(rule, l)
  {
    var n := if l == Text("docker_data") then 11 else if l == Text("podman_data") then 12
             else if l == Text("nix_store") then 13 else 14;
    assert ReportsAlways(BUILTIN_RULES[n], l);
  }

  /** The rules report every protected label, whatever the path, age or size. */
  ghost predicate ReportsProtected(rules: seq<Rule>) {
    forall l | ProtectedLabel(l) :: exists rule :: rule in rules && ReportsAlways(rule, l)
  }

  /** The built-in rules do. */
  lemma {:induction false} ProtectedLabelsAreReported()
    ensures ReportsProtected(BUILTIN_RULES)
  {
    forall l | ProtectedLabel(l) ensures exists rule :: rule in BUILTIN_RULES && ReportsAlways(rule, l) {
      if l in SENSITIVE_LABELS { SensitiveLabelsAreReported(l); } else { ToolLabelsAreReported(l); }
    }
  }

  /** The report is among the rows, unless the root filter dropped the path. */
  lemma {:induction false} ProtectedRow(q: PlanQuery, item: Indexed, l: Bytes)
    requires item in q.items && Within(q.root, Payload(item.path)) && ProtectedLabel(l) && l in item.labels
    requires ReportsProtected(q.rules)
    ensures HasRestrictiveRow(Inputs(Matching(q) + q.adapters), item.path)
  {
    var rule :| rule in q.rules && ReportsAlways(rule, l);
    var r := RuleRow(rule, item, q.max);
    var rows := Matching(q);
    assert l in rule.labelsAny;
    assert RuleMatches(rule, item, q.now);
    RowsOfItems(q.items, q.root, q.rules, q.max, q.now, r);
    var i: nat :| i < |rows| && rows[i] == r;
    assert (rows + q.adapters)[i] == r;
    assert IsRow(Inputs(rows + q.adapters), i, item.path);
  }

  /** Filesystem rows of a plan are within the root. */
  lemma {:induction false} RowsAreInRoot(q: PlanQuery, p: Path)
    requires AdapterRows(q.adapters) && HasRow(Inputs(Matching(q) + q.adapters), p)
    ensures Within(q.root, Payload(p))
  {
    var rows := Matching(q);
    var i: nat :| IsRow(Inputs(rows + q.adapters), i, p);
    assert (rows + q.adapters)[i].row.target == Payload(p);
    assert i < |rows|;
    RowsOfItems(q.items, q.root, q.rules, q.max, q.now, rows[i]);
  }

  /** In the plan, a path that is or contains protected data is blocked, whatever the root and threshold. */
  lemma {:induction false} ProtectedIsBlocked(q: PlanQuery, plan: seq<PlanRow>, item: Indexed, l: Bytes, p: Path,
                                              k: nat)
    requires Planned(q, plan) && ReportsProtected(q.rules)
    requires item in q.items && l in item.labels && ProtectedLabel(l) && p <= item.path
    requires IsRow(Inputs(plan), k, p)
    ensures plan[k].row.blocked
  {
    var rows := Matching(q) + q.adapters;
    var inputs := Inputs(rows);
    var ds: seq<Decision> :| PlannedBy(rows, ds, plan);
    KeptPaths(inputs, ds, p);
    assert HasRow(KeptRows(inputs, ds), p);
    RowsAreInRoot(q, p);
    ProtectedRow(q, item, l);
    var j: nat :| IsRow(inputs, j, item.path) && Restrictive(inputs[j]);
    ExactMeaning(inputs, ds, k, p);
    assert p == item.path || StrictlyAbove(p, item.path);
    assert Inputs(plan)[k] == Kept(inputs, ds[k]);
  }

  /** End to end: with any proposals, and however the plan was stored, no path that clean may take is or
      contains an indexed path with a protected label. */
  lemma {:induction false} ProtectedDataIsSafe(q: PlanQuery, plan: seq<PlanRow>, evidence: Evidence,
                                               stored: seq<Input>, es: seq<Decision>,
                                               item: Indexed, l: Bytes, p: Path, k: nat)
    requires Planned(q, plan) && ReportsProtected(q.rules)
    requires SameRows(Inputs(EnrichAll(plan, evidence, q.max)), stored) && Canonical(stored, es)
    requires item in q.items && l in item.labels && ProtectedLabel(l)
    requires Decides(stored, es, k, p) && !es[k].blocked
    ensures !(p <= item.path)
  {
    if p <= item.path {
      var b := Inputs(EnrichAll(plan, evidence, q.max));
      PlannedIsSettled(q, plan);
      EnrichmentKeepsSettled(plan, evidence, q.max);
      CleanSeesThePlan(b, stored, es, p);
      var i: nat :| IsRow(b, i, p);
      EnrichedPaths(plan, evidence, q.max, p);
      EnrichedRow(plan, evidence, q.max, i);
      ProtectedIsBlocked(q, plan, item, l, p, i);
      assert false;
    }
  }
}
