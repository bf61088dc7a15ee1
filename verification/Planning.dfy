/** From the classified index to a plan: rules, policy, canonicalization, and the advisory AI pass. */
module Planning {
  import opened Base
  import opened Order
  import opened Policy
  import opened Rules
  import opened Hierarchy

  datatype Indexed = Indexed(
    entryId: int,
    path: Path,
    labels: seq<Bytes>,
    size: nat,
    maxMtime: Option<int>,
    observedAt: int)

  type U64 = x: nat | x < 0x1_0000_0000_0000_0000

  datatype Rule = Rule(
    id: Bytes,
    risk: Risk,
    action: ActionType,
    reversible: bool,
    labelsAny: seq<Bytes>,
    pathContainsAny: seq<Bytes>,
    basename: Option<Bytes>,
    olderThanDays: Option<U64>,
    minSize: Option<nat>)

  datatype PlanRow = PlanRow(row: Input, size: nat)

  // rules/default.yaml

  function Cleanup(id: string, risk: Risk, tag: string): Rule {
    Rule(Text(id), risk, Quarantine, true, [Text(tag)], [], None, None, None)
  }

  function Report(id: string, risk: Risk, tag: string): Rule {
    Rule(Text(id), risk, ReportOnly, false, [Text(tag)], [], None, None, None)
  }

  const BUILTIN_RULES: seq<Rule> := [
    Cleanup("trash-old", Low, "trash").(olderThanDays := Some(30)),
    Cleanup("linux-thumbnail-cache-old", Low, "thumbnail_cache").(olderThanDays := Some(60)),
    Cleanup("python-pip-cache-old", Low, "python_cache")
      .(pathContainsAny := [Text("/.cache/pip")], olderThanDays := Some(30)),
    Cleanup("python-bytecode-cache", Low, "python_bytecode_cache"),
    Cleanup("node-cache-old", Low, "node_cache").(olderThanDays := Some(30)),
    Cleanup("node-modules-project-deps", Medium, "node_dependencies").(basename := Some(Text("node_modules"))),
    Cleanup("node-build-artifacts", Medium, "node_build_artifacts"),
    Cleanup("rust-target-build-artifacts", Medium, "rust_build_artifacts").(basename := Some(Text("target"))),
    Cleanup("go-cache-old", Low, "go_cache").(olderThanDays := Some(30)),
    Cleanup("gradle-cache-old", Medium, "gradle_cache").(olderThanDays := Some(30)),
    Cleanup("maven-cache-old", Medium, "maven_cache").(olderThanDays := Some(60)),
    Report("docker-data-report", High, "docker_data"),
    Report("podman-data-report", High, "podman_data"),
    Report("nix-store-report", High, "nix_store"),
    Report("systemd-journal-report", Medium, "systemd_journal"),
    Report("database-report", Forbidden, "database"),
    Report("vm-image-report", Forbidden, "vm_image"),
    Report("secret-material-report", Forbidden, "secret_material"),
    Report("browser-profile-report", Forbidden, "browser_profile"),
    Report("git-metadata-report", Forbidden, "git_repo")]

  // rule_matches

  function PathText(p: Path): Bytes {
    if p == [] then [47] else if |p| == 1 then [47] + p[0] else PathText(Parent(p)) + [47] + p[|p| - 1]
  }

  predicate StartsAt(text: Bytes, needle: Bytes, i: nat)
    requires i <= |text|
  {
    needle <= text[i..]
  }

  predicate Contains(text: Bytes, needle: Bytes) {
    exists i :: 0 <= i <= |text| && StartsAt(text, needle, i)
  }

  function SaturateI64(x: int): int {
    if x < -0x8000_0000_0000_0000 then -0x8000_0000_0000_0000
    else if x > 0x7fff_ffff_ffff_ffff then 0x7fff_ffff_ffff_ffff else x
  }

  /** `days as i64`. */
  function WrapI64(days: U64): int {
    if days < 0x8000_0000_0000_0000 then days else days - 0x1_0000_0000_0000_0000
  }

  predicate RuleMatches(rule: Rule, item: Indexed, now: int) {
    && (rule.labelsAny != [] ==> exists l :: l in rule.labelsAny && l in item.labels)
    && (rule.pathContainsAny != [] ==> exists n :: n in rule.pathContainsAny && Contains(PathText(item.path), n))
    && (rule.basename.Some? ==> item.path != [] && item.path[|item.path| - 1] == rule.basename.value)
    && (rule.minSize.Some? ==> item.size >= rule.minSize.value)
    && (rule.olderThanDays.Some? ==>
      && item.maxMtime.Some?
      && SaturateI64(now - item.maxMtime.value) >= SaturateI64(WrapI64(rule.olderThanDays.value) * 86400))
  }

  // validate_policy

  const SENSITIVE_LABELS: seq<Bytes> :=
    [Text("secret_material"), Text("git_repo"), Text("database"), Text("vm_image"), Text("browser_profile")]

  const TOOL_LABELS: seq<Bytes> :=
    [Text("docker_data"), Text("podman_data"), Text("nix_store"), Text("systemd_journal")]

  function ValidatePolicy(rule: Rule, item: Indexed, max: Risk): Option<Reason> {
    if exists l :: l in SENSITIVE_LABELS && l in item.labels then Some(Given(Text("protected")))
    else if exists l :: l in TOOL_LABELS && l in item.labels then Some(Given(Text("needs a tool-native adapter")))
    else if !RiskAllows(rule.risk, max) then Some(Given(Text("risk exceeds threshold")))
    else if rule.risk == Forbidden then Some(Given(Text("forbidden by design")))
    else None
  }

  // The candidate loop of run_plan

  function RuleRow(rule: Rule, item: Indexed, max: Risk): PlanRow {
    var reason := ValidatePolicy(rule, item, max);
    PlanRow(Input(Payload(item.path), rule.risk, reason.Some?, reason, rule.reversible, rule.action, rule.id),
            item.size)
  }

  function ItemRows(rules: seq<Rule>, item: Indexed, max: Risk, now: int): seq<PlanRow> {
    if rules == [] then []
    else
      var rule := rules[|rules| - 1];
      ItemRows(rules[..|rules| - 1], item, max, now) +
      if RuleMatches(rule, item, now) then [RuleRow(rule, item, max)] else []
  }

  function CandidateRows(items: seq<Indexed>, root: Option<Path>, rules: seq<Rule>, max: Risk, now: int): seq<PlanRow> {
    if items == [] then []
    else
      var item := items[|items| - 1];
      CandidateRows(items[..|items| - 1], root, rules, max, now) +
      if Within(root, Payload(item.path)) then ItemRows(rules, item, max, now) else []
  }

  method CollectCandidates(items: seq<Indexed>, root: Option<Path>, rules: seq<Rule>, max: Risk, now: int)
    returns (rows: seq<PlanRow>)
    ensures rows == CandidateRows(items, root, rules, max, now)
  {
    rows := [];
    for i := 0 to |items|
      invariant rows == CandidateRows(items[..i], root, rules, max, now)
    {
      var item := items[i];
      assert items[..i + 1][..|items[..i + 1]| - 1] == items[..i];
      if !Within(root, Payload(item.path)) {
        continue;
      }
      var matching := MatchRules(item, rules, max, now);
      rows := rows + matching;
    }
    assert items[..|items|] == items;
  }

  method MatchRules(item: Indexed, rules: seq<Rule>, max: Risk, now: int) returns (rows: seq<PlanRow>)
    ensures rows == ItemRows(rules, item, max, now)
  {
    rows := [];
    for j := 0 to |rules|
      invariant rows == ItemRows(rules[..j], item, max, now)
    {
      assert rules[..j + 1][..|rules[..j + 1]| - 1] == rules[..j];
      if RuleMatches(rules[j], item, now) {
        rows := rows + [RuleRow(rules[j], item, max)];
      }
    }
    assert rules[..|rules|] == rules;
  }

  /** Each row comes from an indexed path within the root and a rule that matches it, and conversely. */
  lemma {:induction false} RowsOfItem(rules: seq<Rule>, item: Indexed, max: Risk, now: int, r: PlanRow)
    ensures r in ItemRows(rules, item, max, now) <==>
            exists rule :: rule in rules && RuleMatches(rule, item, now) && r == RuleRow(rule, item, max)
  {
    if rules != [] {
      var front, last := rules[..|rules| - 1], rules[|rules| - 1];
      RowsOfItem(front, item, max, now, r);
      assert rules == front + [last];
    }
  }

  lemma {:induction false} RowsOfItems(items: seq<Indexed>, root: Option<Path>, rules: seq<Rule>, max: Risk, now: int,
                                       r: PlanRow)
    ensures r in CandidateRows(items, root, rules, max, now) <==>
            exists item, rule :: item in items && Within(root, Payload(item.path)) && rule in rules
              && RuleMatches(rule, item, now) && r == RuleRow(rule, item, max)
  {
    if items != [] {
      var front, last := items[..|items| - 1], items[|items| - 1];
      RowsOfItems(front, root, rules, max, now, r);
      RowsOfItem(rules, last, max, now, r);
      assert items == front + [last];
    }
  }

  // canonicalize_plan_candidates

  function Inputs(rows: seq<PlanRow>): (inputs: seq<Input>)
    ensures |inputs| == |rows|
  {
    seq(|rows|, i requires 0 <= i < |rows| => rows[i].row)
  }

  /** The plan that the decisions `ds` make of the rows: what each keeps, with the size of its row. */
  ghost predicate PlannedBy(rows: seq<PlanRow>, ds: seq<Decision>, plan: seq<PlanRow>) {
    && Canonical(Inputs(rows), ds) && Sources(Inputs(rows), ds) && Inputs(plan) == KeptRows(Inputs(rows), ds)
    && |plan| == |ds| && forall k | 0 <= k < |plan| :: plan[k].size == rows[ds[k].source].size
  }

  method CanonicalizePlan(rows: seq<PlanRow>) returns (plan: seq<PlanRow>)
    ensures exists ds :: PlannedBy(rows, ds, plan)
  {
    var inputs := Inputs(rows);
    var ds := CanonicalizeHierarchy(inputs);
    CanonicalRowsAreSettled(inputs, ds);
    plan := [];
    for k := 0 to |ds|
      invariant |plan| == k
      invariant forall l | 0 <= l < k :: plan[l] == PlanRow(Kept(inputs, ds[l]), rows[ds[l].source].size)
    {
      plan := plan + [PlanRow(Kept(inputs, ds[k]), rows[ds[k].source].size)];
    }
    assert PlannedBy(rows, ds, plan);
  }

  // conservative_policy

  datatype AiRisk = AiLow | AiMedium | AiHigh

  datatype AiAction = Ignore | Review | Accept

  datatype Proposal = Proposal(risk: AiRisk, action: AiAction, confidence: real)

  const MIN_AI_ACTION_CONFIDENCE: real := 0.75

  function MapAiRisk(r: AiRisk): Risk {
    match r
    case AiLow => Low
    case AiMedium => Medium
    case AiHigh => High
  }

  function ConservativePolicy(row: Input, proposal: Proposal, max: Risk): Input {
    var risk := MaxRisk(row.risk, MapAiRisk(proposal.risk));
    if row.blocked then
      row.(risk := risk, reason := if row.reason.Some? then row.reason else Some(Given(Text("blocked before AI"))))
    else if !row.reversible || row.action != Quarantine then
      row.(risk := risk, blocked := true, reason := Some(Given(Text("AI cannot authorize this action"))))
    else if proposal.action == Ignore then
      row.(risk := risk, blocked := true, reason := Some(Given(Text("AI recommends ignore"))))
    else if proposal.action == Review then
      row.(risk := risk, blocked := true, reason := Some(Given(Text("AI requires review"))))
    else if proposal.confidence < MIN_AI_ACTION_CONFIDENCE then
      row.(risk := risk, blocked := true, reason := Some(Given(Text("AI confidence below threshold"))))
    else if !RiskAllows(risk, max) then
      row.(risk := risk, blocked := true, reason := Some(Given(Text("risk exceeds threshold"))))
    else
      row.(risk := risk, blocked := false, reason := None)
  }

  /** Which proposal was accepted as evidence for which path. */
  type Evidence = map<Path, Proposal>

  function Enrich(r: PlanRow, evidence: Evidence, max: Risk): PlanRow {
    match r.row.target
    case Adapter(_) => r
    case Payload(p) => if p in evidence then r.(row := ConservativePolicy(r.row, evidence[p], max)) else r
  }

  function EnrichAll(rows: seq<PlanRow>, evidence: Evidence, max: Risk): (r: seq<PlanRow>)
    ensures |r| == |rows|
  {
    seq(|rows|, i requires 0 <= i < |rows| => Enrich(rows[i], evidence, max))
  }

  // analyze_plan_candidates

  /** A row the provider may be asked about. */
  predicate Eligible(r: PlanRow) {
    !r.row.blocked && r.row.reversible && r.row.action == Quarantine && r.row.target.Payload?
  }

  ghost predicate EligiblePath(rows: seq<PlanRow>, p: Path) {
    exists r :: r in rows && Eligible(r) && r.row.target == Payload(p)
  }

  /** An eligible row of `p` has this size. */
  ghost predicate HasSize(rows: seq<PlanRow>, p: Path, size: nat) {
    exists r | r in rows :: Eligible(r) && r.row.target.path == p && r.size == size
  }

  method EligibleSizes(rows: seq<PlanRow>) returns (sizes: map<Path, nat>)
    ensures forall p :: p in sizes <==> EligiblePath(rows, p)
    ensures forall r | r in rows && Eligible(r) :: r.row.target.path in sizes && r.size <= sizes[r.row.target.path]
    ensures forall p | p in sizes :: HasSize(rows, p, sizes[p])
  {
    sizes := map[];
    for i := 0 to |rows|
      invariant forall p :: p in sizes <==> EligiblePath(rows[..i], p)
      invariant forall r | r in rows[..i] && Eligible(r) ::
                  r.row.target.path in sizes && r.size <= sizes[r.row.target.path]
      invariant forall p | p in sizes :: HasSize(rows[..i], p, sizes[p])
    {
      var r := rows[i];
      assert rows[..i + 1] == rows[..i] + [r];
      forall p | p in sizes ensures HasSize(rows[..i + 1], p, sizes[p]) {
        var s :| s in rows[..i] && Eligible(s) && s.row.target.path == p && s.size == sizes[p];
        assert s in rows[..i + 1];
      }
      if Eligible(r) {
        var p := r.row.target.path;
        sizes := sizes[p := if p in sizes && sizes[p] >= r.size then sizes[p] else r.size];
      }
    }
    assert rows[..|rows|] == rows;
  }

  /** The analysis takes `p` before `q`: the larger first, equal sizes by path. */
  predicate Sooner(sizes: map<Path, nat>, p: Path, q: Path)
    requires p in sizes && q in sizes
  {
    sizes[p] > sizes[q] || (sizes[p] == sizes[q] && PathLe(p, q))
  }

  lemma {:induction false} SoonerIsTotal(sizes: map<Path, nat>, p: Path, q: Path)
    requires p in sizes && q in sizes
    ensures Sooner(sizes, p, q) || Sooner(sizes, q, p)
  {
    PathLeTotal(p, q);
  }

  lemma {:induction false} SoonerIsTransitive(sizes: map<Path, nat>, p: Path, q: Path, r: Path)
    requires p in sizes && q in sizes && r in sizes && Sooner(sizes, p, q) && Sooner(sizes, q, r)
    ensures Sooner(sizes, p, r)
  {
    if PathLe(p, q) && PathLe(q, r) { PathLeTransitive(p, q, r); }
  }

  method First(sizes: map<Path, nat>, rest: set<Path>) returns (best: Path)
    requires rest != {} && rest <= sizes.Keys
    ensures best in rest && forall q | q in rest :: Sooner(sizes, best, q)
  {
    best :| best in rest;
    SoonerIsTotal(sizes, best, best);
    var others := rest - {best};
    while others != {}
      invariant best in rest && others <= rest
      invariant forall q | q in rest - others :: Sooner(sizes, best, q)
    {
      var q :| q in others;
      SoonerIsTotal(sizes, best, q);
      SoonerIsTotal(sizes, q, q);
      if !Sooner(sizes, best, q) {
        forall r | r in rest - others ensures Sooner(sizes, q, r) {
          SoonerIsTransitive(sizes, q, best, r);
        }
        best := q;
      }
      others := others - {q};
    }
    assert rest - others == rest;
  }

  /** The first `limit` of the eligible paths: the largest, equal sizes by path. */
  method SelectLargest(sizes: map<Path, nat>, limit: nat) returns (selected: seq<Path>)
    ensures |selected| <= limit && (|selected| < limit ==> forall p | p in sizes :: p in selected)
    ensures forall p | p in selected :: p in sizes
    ensures forall i, j | 0 <= i < j < |selected| :: selected[i] != selected[j]
    ensures forall i, j | 0 <= i < j < |selected| ::
              var p, q := selected[i], selected[j]; sizes[p] > sizes[q] || (sizes[p] == sizes[q] && PathLe(p, q))
    ensures forall p, q | p in selected && q in sizes && q !in selected ::
              sizes[p] > sizes[q] || (sizes[p] == sizes[q] && PathLe(p, q))
  {
    selected := [];
    var rest := sizes.Keys;
    while rest != {} && |selected| < limit
      invariant |selected| <= limit
      invariant rest == sizes.Keys - (set p | p in selected)
      invariant forall p | p in selected :: p in sizes
      invariant forall i, j | 0 <= i < j < |selected| ::
                  selected[i] != selected[j] && Sooner(sizes, selected[i], selected[j])
      invariant forall p, q | p in selected && q in rest :: Sooner(sizes, p, q)
    {
      var best := First(sizes, rest);
      selected := selected + [best];
      rest := rest - {best};
    }
    assert forall p | p in sizes && p !in rest :: p in selected;
  }

  /** What the surroundings of the analysis give: the provider's validated proposal, if any. */
  type Provider = Indexed -> Option<Proposal>

  /** Evidence is about an indexed path and is what the provider said of it. */
  ghost predicate Backed(items: seq<Indexed>, provider: Provider, evidence: Evidence) {
    forall p | p in evidence :: exists item :: item in items && item.path == p && provider(item) == Some(evidence[p])
  }

  /** Asks about each selected path; one failure ends the analysis. */
  method Consult(items: seq<Indexed>, selected: seq<Path>, provider: Provider) returns (ok: bool, evidence: Evidence)
    ensures Backed(items, provider, evidence) && |evidence| <= |selected|
    ensures forall p | p in evidence :: p in selected
    ensures ok ==> forall p | p in selected :: p in evidence
  {
    ok, evidence := true, map[];
    for i := 0 to |selected|
      invariant ok && Backed(items, provider, evidence) && |evidence| <= i
      invariant forall p | p in evidence :: p in selected
      invariant forall j | 0 <= j < i :: selected[j] in evidence
    {
      var facts := FindFacts(items, selected[i]);
      if facts.None? { return false, evidence; }
      var proposal := provider(facts.value);
      if proposal.None? { return false, evidence; }
      evidence := evidence[selected[i] := proposal.value];
    }
  }

  method ApplyEvidence(rows: seq<PlanRow>, evidence: Evidence, max: Risk) returns (r: seq<PlanRow>)
    ensures r == EnrichAll(rows, evidence, max)
  {
    r := [];
    for k := 0 to |rows|
      invariant r == EnrichAll(rows[..k], evidence, max)
    {
      r := r + [Enrich(rows[k], evidence, max)];
    }
    assert rows[..|rows|] == rows;
  }

  method AnalyzePlan(items: seq<Indexed>, rows: seq<PlanRow>, provider: Provider, max: Risk, limit: nat)
    returns (result: Option<seq<PlanRow>>, evidence: Evidence)
    ensures result.Some? ==> result.value == EnrichAll(rows, evidence, max)
    ensures Backed(items, provider, evidence) && |evidence| <= limit
    ensures forall p | p in evidence :: exists r | r in rows ::
              !r.row.blocked && r.row.reversible && r.row.action == Quarantine && r.row.target == Payload(p)
  {
    var sizes := EligibleSizes(rows);
    var selected := SelectLargest(sizes, limit);
    var ok: bool;
    ok, evidence := Consult(items, selected, provider);
    if !ok { return None, evidence; }
    var enriched := ApplyEvidence(rows, evidence, max);
    result := Some(enriched);
  }

  method FindFacts(items: seq<Indexed>, p: Path) returns (facts: Option<Indexed>)
    ensures facts.Some? ==> facts.value in items && facts.value.path == p
    ensures facts.None? ==> forall item | item in items :: item.path != p
  {
    for i := 0 to |items|
      invariant forall j | 0 <= j < i :: items[j].path != p
    {
      if items[i].path == p { return Some(items[i]); }
    }
    return None;
  }
}
