/** What the rows of a plan say, rule by rule and proposal by proposal. */
module Matching {
  import opened Base
  import opened Policy
  import opened Rules
  import opened Planning

  // Which rows there are

  /** The text of a path is its components, each after a slash. */
  lemma {:induction false} PathTextIs(p: Path, name: Bytes)
    ensures PathText([]) == Text("/") && PathText([name]) == Text("/") + name
    ensures p != [] ==> PathText(p + [name]) == PathText(p) + Text("/") + name
  {
    assert (p + [name])[..|p|] == p && Text("/") == [47];
  }

  lemma {:induction false} ContainsMeans(text: Bytes, needle: Bytes)
    ensures Contains(text, needle) <==> exists before, after :: text == before + needle + after
  {
    if Contains(text, needle) {
      var i :| 0 <= i <= |text| && StartsAt(text, needle, i);
      assert text == text[..i] + needle + text[i..][|needle|..];
    }
    if before, after :| text == before + needle + after {
      assert text[|before|..] == needle + after;
      assert StartsAt(text, needle, |before|);
    }
  }

  /** The age in seconds is at least that many days; what does not fit 64 bits is cut off at both ends, and
      a number of days from 2^63 on is taken for a negative one. */
  predicate OldEnough(days: U64, mtime: int, now: int) {
    var age := now - mtime;
    if days * 86400 < 0x8000_0000_0000_0000 then age >= days * 86400
    else if days < 0x8000_0000_0000_0000 then age >= 0x7fff_ffff_ffff_ffff
    else
      var threshold := (days - 0x1_0000_0000_0000_0000) * 86400;
      threshold <= -0x8000_0000_0000_0000 || age >= threshold
  }

  lemma {:induction false} AgeTest(days: U64, mtime: int, now: int)
    ensures SaturateI64(now - mtime) >= SaturateI64(WrapI64(days) * 86400) <==> OldEnough(days, mtime, now)
  {
  }

  /** What a rule asks of an item: each of its conditions, where it has one. */
  ghost predicate Applies(rule: Rule, item: Indexed, now: int) {
    && (rule.labelsAny == [] || exists l :: l in rule.labelsAny && l in item.labels)
    && (rule.pathContainsAny == [] ||
        exists needle, before, after :: needle in rule.pathContainsAny
          && PathText(item.path) == before + needle + after)
    && (rule.basename.None? || exists parent :: item.path == parent + [rule.basename.value])
    && (rule.minSize.None? || item.size >= rule.minSize.value)
    && (rule.olderThanDays.None? ||
        (item.maxMtime.Some? && OldEnough(rule.olderThanDays.value, item.maxMtime.value, now)))
  }

  /** A label that no plan cleans. */
  predicate NeverCleaned(l: Bytes) {
    || l == Text("secret_material") || l == Text("git_repo") || l == Text("database")
    || l == Text("vm_image") || l == Text("browser_profile")
    || l == Text("docker_data") || l == Text("podman_data") || l == Text("nix_store")
    || l == Text("systemd_journal")
  }

  /** The row of a rule for an item: blocked for its label, or for a risk above the threshold. */
  ghost predicate RowOf(rule: Rule, item: Indexed, max: Risk, r: PlanRow) {
    && r.row.target == Payload(item.path) && r.size == item.size
    && r.row.risk == rule.risk && r.row.reversible == rule.reversible && r.row.action == rule.action
    && r.row.ruleId == rule.id && (r.row.reason.Some? <==> r.row.blocked)
    && (r.row.blocked <==>
        || (exists l :: l in item.labels && NeverCleaned(l))
        || rule.risk == Forbidden
        || (rule.risk == High && (max == Low || max == Medium)) || (rule.risk == Medium && max == Low))
  }

  lemma {:induction false} MatchesMeansApplies(rule: Rule, item: Indexed, now: int)
    ensures RuleMatches(rule, item, now) <==> Applies(rule, item, now)
  {
    forall needle ensures Contains(PathText(item.path), needle) <==>
                          exists before, after :: PathText(item.path) == before + needle + after {
      ContainsMeans(PathText(item.path), needle);
    }
    if rule.basename.Some? {
      if item.path != [] { assert item.path == Parent(item.path) + [item.path[|item.path| - 1]]; }
      if parent :| item.path == parent + [rule.basename.value] { assert item.path[|parent|] == rule.basename.value; }
    }
    if rule.olderThanDays.Some? && item.maxMtime.Some? {
      AgeTest(rule.olderThanDays.value, item.maxMtime.value, now);
    }
  }

  lemma {:induction false} RuleRowIs(rule: Rule, item: Indexed, max: Risk)
    ensures RowOf(rule, item, max, RuleRow(rule, item, max))
  {
    forall l ensures NeverCleaned(l) <==> l in SENSITIVE_LABELS || l in TOOL_LABELS {
    }
  }

  /** Every row of a plan comes from an item within the root and a rule that applies to it. */
  lemma {:induction false} RowsComeFromRules(items: seq<Indexed>, root: Option<Path>, rules: seq<Rule>, max: Risk,
                                             now: int, r: PlanRow)
    requires r in CandidateRows(items, root, rules, max, now)
    ensures exists item, rule ::
              && item in items && (root.None? || root.value <= item.path)
              && rule in rules && Applies(rule, item, now) && RowOf(rule, item, max, r)
  {
    RowsOfItems(items, root, rules, max, now, r);
    var item, rule :| item in items && Within(root, Payload(item.path)) && rule in rules
                      && RuleMatches(rule, item, now) && r == RuleRow(rule, item, max);
    MatchesMeansApplies(rule, item, now);
    RuleRowIs(rule, item, max);
  }

  /** And each of them makes one. */
  lemma {:induction false} RulesMakeRows(items: seq<Indexed>, root: Option<Path>, rules: seq<Rule>, max: Risk,
                                         now: int, item: Indexed, rule: Rule)
    requires item in items && (root.None? || root.value <= item.path) && rule in rules && Applies(rule, item, now)
    ensures exists r :: r in CandidateRows(items, root, rules, max, now) && RowOf(rule, item, max, r)
  {
    MatchesMeansApplies(rule, item, now);
    RuleRowIs(rule, item, max);
    RowsOfItems(items, root, rules, max, now, RuleRow(rule, item, max));
  }

  /** Waiting longer loses no row. */
  lemma {:induction false} WaitingKeepsRows(items: seq<Indexed>, root: Option<Path>, rules: seq<Rule>, max: Risk,
                                            now: int, later: int, r: PlanRow)
    requires now <= later && r in CandidateRows(items, root, rules, max, now)
    ensures r in CandidateRows(items, root, rules, max, later)
  {
    RowsOfItems(items, root, rules, max, now, r);
    var item, rule :| item in items && Within(root, Payload(item.path)) && rule in rules
                      && RuleMatches(rule, item, now) && r == RuleRow(rule, item, max);
    RowsOfItems(items, root, rules, max, later, r);
  }

  /** Neither does an older modification. */
  lemma {:induction false} OlderKeepsRows(rules: seq<Rule>, item: Indexed, mtime: int, max: Risk, now: int, r: PlanRow)
    requires item.maxMtime.Some? && mtime <= item.maxMtime.value && r in ItemRows(rules, item, max, now)
    ensures r in ItemRows(rules, item.(maxMtime := Some(mtime)), max, now)
  {
    RowsOfItem(rules, item, max, now, r);
    var older := item.(maxMtime := Some(mtime));
    RowsOfItem(rules, older, max, now, r);
    var rule :| rule in rules && RuleMatches(rule, item, now) && r == RuleRow(rule, item, max);
    OlderMatches(rule, item, mtime, max, now);
  }

  lemma {:induction false} OlderMatches(rule: Rule, item: Indexed, mtime: int, max: Risk, now: int)
    requires item.maxMtime.Some? && mtime <= item.maxMtime.value && RuleMatches(rule, item, now)
    ensures var older := item.(maxMtime := Some(mtime));
            RuleMatches(rule, older, now) && RuleRow(rule, older, max) == RuleRow(rule, item, max)
  {
  }

  /** How long the built-in rules wait, in their order: thumbnails and Maven's cache sixty days, other caches
      and the trash thirty; what can be built again and the reports not at all. */
  lemma {:induction false} BuiltinRulesWait(n: nat)
    requires n < |BUILTIN_RULES|
    ensures BUILTIN_RULES[n].olderThanDays ==
            if n == 1 || n == 10 then Some(60)
            else if n == 0 || n == 2 || n == 4 || n == 8 || n == 9 then Some(30) else None
    ensures if n < 11 then BUILTIN_RULES[n].action == Quarantine && BUILTIN_RULES[n].reversible
            else BUILTIN_RULES[n].action == ReportOnly && !BUILTIN_RULES[n].reversible
    ensures BUILTIN_RULES[1].labelsAny == [Text("thumbnail_cache")]
    ensures BUILTIN_RULES[10].labelsAny == [Text("maven_cache")]
  {
  }

  const COMPILED := Text("python-bytecode-cache")

  /** A rule of low risk, but that for Python's compiled files, waits thirty to sixty days. */
  ghost predicate LowRiskWaits(rules: seq<Rule>) {
    forall rule | rule in rules && rule.risk == Low && rule.id != COMPILED ::
      rule.olderThanDays.Some? && 30 <= rule.olderThanDays.value <= 60
  }

  lemma {:induction false} BuiltinLowRiskWaits()
    ensures LowRiskWaits(BUILTIN_RULES)
  {
    forall rule | rule in BUILTIN_RULES && rule.risk == Low && rule.id != COMPILED
      ensures rule.olderThanDays.Some? && 30 <= rule.olderThanDays.value <= 60
    {
      LowRuleWaits(rule);
    }
  }

  lemma {:induction false} LowRuleWaits(rule: Rule)
    requires rule in BUILTIN_RULES && rule.risk == Low
    ensures rule.id == COMPILED || (rule.olderThanDays.Some? && 30 <= rule.olderThanDays.value <= 60)
  {
  }

  /** With such rules, nothing that was modified in the last thirty days is a candidate of low risk. */
  lemma {:induction false} LowRiskRowsAreOld(items: seq<Indexed>, root: Option<Path>, rules: seq<Rule>, max: Risk,
                                             now: int, r: PlanRow)
    requires LowRiskWaits(rules) && r in CandidateRows(items, root, rules, max, now)
    requires r.row.risk == Low && r.row.ruleId != COMPILED
    ensures exists item | item in items ::
              r.row.target == Payload(item.path) && item.maxMtime.Some? && now - item.maxMtime.value >= 30 * 86400
  {
    RowsComeFromRules(items, root, rules, max, now, r);
  }

  // What a proposal does

  /** The evidence about a path, row by row: the level the provider names is a lower bound of the risk, a
      level above the threshold blocks, and so does anything but a confident assent. */
  lemma {:induction false} ProposalMeans(rows: seq<PlanRow>, evidence: Evidence, max: Risk, k: nat, p: Path)
    requires k < |rows| && rows[k].row.target == Payload(p) && p in evidence
    ensures var row, r, said := rows[k].row, EnrichAll(rows, evidence, max)[k].row, evidence[p];
            && r.target == row.target && r.reversible == row.reversible && r.action == row.action
            && r.ruleId == row.ruleId && EnrichAll(rows, evidence, max)[k].size == rows[k].size
            && (said.risk == AiLow ==> r.risk == row.risk)
            && (said.risk == AiMedium ==> r.risk == if row.risk == Low then Medium else row.risk)
            && (said.risk == AiHigh ==> r.risk == if row.risk == Forbidden then Forbidden else High)
            && (r.blocked <==>
                || row.blocked || !row.reversible || row.action != Quarantine
                || said.action == Ignore || said.action == Review || said.confidence < 0.75
                || r.risk == Forbidden || (r.risk == High && (max == Low || max == Medium))
                || (r.risk == Medium && max == Low))
            && (r.reason.Some? <==> r.blocked) && (row.blocked && row.reason.Some? ==> r.reason == row.reason)
  {
  }

  /** Without evidence a row stays as it is. */
  lemma {:induction false} SilenceChangesNothing(rows: seq<PlanRow>, evidence: Evidence, max: Risk, k: nat)
    requires k < |rows| && (rows[k].row.target.Payload? ==> rows[k].row.target.path !in evidence)
    ensures EnrichAll(rows, evidence, max)[k] == rows[k]
  {
  }
}
