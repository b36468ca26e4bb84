/** The generated routing rules, and how the topology explains them. */
module Mihomo {
  import opened Prelude
  import opened Text
  import opened Desired
  import opened Rules
  import opened Policy
  import opened RoutingTopology

  const RULE_SET := "RULE-SET"

  function RuleSetLine(ruleSet: RoutingRuleSet): string {
    RULE_SET + "," + ruleSet.slug + "," + ruleSet.target
  }

  function RuleSetLines(ruleSets: seq<RoutingRuleSet>): (r: seq<string>)
    ensures |r| == |ruleSets| && forall i :: 0 <= i < |r| ==> r[i] == RuleSetLine(ruleSets[i])
  {
    seq(|ruleSets|, i requires 0 <= i < |ruleSets| => RuleSetLine(ruleSets[i]))
  }

  function RuleLine(rule: ResolvedRule): Option<string> {
    if Trim(rule.condition) == MATCH then Some(MATCH + "," + rule.target)
    else ClassicalRuleWithTarget(Trim(rule.condition), rule.target)
  }

  function RuleLines(rules: seq<ResolvedRule>): Option<seq<string>> {
    if rules == [] then Some([])
    else
      var n := |rules| - 1;
      match (RuleLines(rules[..n]), RuleLine(rules[n]))
      case (Some(lines), Some(line)) => Some(lines + [line])
      case _ => None
  }

  /** Capability targets resolve to names that may stand in a rule. */
  ghost predicate TargetsLegal(policy: ClientPolicy, profiles: seq<Profile>) {
    forall x :: x in policy.rules && x.enabled && Trim(x.condition) != MATCH ==>
      TargetOf(profiles, x.target).Some? && LegalTarget(TargetOf(profiles, x.target).value)
  }

  function GenerationOrder(policy: ClientPolicy): seq<PolicyRule> {
    SortRules(ByPriority, EnabledRules(policy.rules))
  }

  /** What is generated for a policy that resolves. */
  function Generated(active: seq<RoutingRuleSet>, policy: ClientPolicy, profiles: seq<Profile>): Option<seq<string>> {
    match Targeted(profiles, GenerationOrder(policy))
    case None => None
    case Some(rules) =>
      match RuleLines(rules)
      case None => None
      case Some(lines) => Some(RuleSetLines(active) + lines)
  }

  method RoutingRules(active: seq<RoutingRuleSet>, policy: ClientPolicy, profiles: seq<Profile>) returns (r: Option<seq<string>>)
    ensures r == if Valid(policy, profiles) then Generated(active, policy, profiles) else None
    ensures r.Some? <==> Valid(policy, profiles) && TargetsOffered(policy, profiles) && TargetsLegal(policy, profiles)
  {
    hide Valid, TargetsOffered, TargetsLegal, Targeted, RuleLines, SortRules;
    if Valid(policy, profiles) {
      GeneratedExactly(active, policy, profiles);
    }
    var rules := RuleSetLines(active);
    var resolved := ResolveRules(policy, profiles);
    if resolved.None? {
      return None;
    }
    var more := EmitRules(resolved.value);
    if more.None? {
      return None;
    }
    r := Some(rules + more.value);
  }

  method EmitRules(rules: seq<ResolvedRule>) returns (r: Option<seq<string>>)
    ensures r == RuleLines(rules)
  {
    hide RuleLine;
    RuleLinesExactly(rules);
    var lines: seq<string> := [];
    for i := 0 to |rules|
      invariant RuleLines(rules[..i]) == Some(lines)
    {
      assert rules[..i + 1][..i] == rules[..i];
      var line := RuleLine(rules[i]);
      if line.None? {
        return None;
      }
      lines := lines + [line.value];
    }
    assert rules[..|rules|] == rules;
    r := Some(lines);
  }

  lemma {:induction false} RuleLinesExactly(rules: seq<ResolvedRule>)
    ensures RuleLines(rules).Some? <==> forall i :: 0 <= i < |rules| ==> RuleLine(rules[i]).Some?
    ensures RuleLines(rules).Some? ==>
              |RuleLines(rules).value| == |rules| && forall i :: 0 <= i < |rules| ==> RuleLine(rules[i]) == Some(RuleLines(rules).value[i])
  {
    hide RuleLine;
    if rules != [] {
      var n := |rules| - 1;
      RuleLinesExactly(rules[..n]);
      assert forall i :: 0 <= i < n ==> rules[i] == rules[..n][i];
    }
  }

  lemma OnlyTargetMatters(condition: string, a: string, b: string)
    requires ClassicalRuleWithTarget(condition, a).Some?
    ensures ClassicalRuleWithTarget(condition, b).Some? <==> LegalTarget(b)
  {
    hide LegalTarget, Fields, Validated;
  }

  lemma RuleLineExactly(policy: ClientPolicy, profiles: seq<Profile>, rule: PolicyRule, target: string)
    requires ValidRule(policy, profiles, rule)
    ensures RuleLine(ResolvedRule(rule.condition, target)).Some? <==> Trim(rule.condition) == MATCH || LegalTarget(target)
  {
    hide LegalTarget, ClassicalRuleWithTarget, ValidTarget;
    if Trim(rule.condition) != MATCH {
      OnlyTargetMatters(Trim(rule.condition), rule.target, target);
    }
  }

  /** Generation fails for a valid policy only over the name a capability resolves to. */
  lemma GeneratedExactly(active: seq<RoutingRuleSet>, policy: ClientPolicy, profiles: seq<Profile>)
    requires Valid(policy, profiles)
    ensures Generated(active, policy, profiles).Some? <==> TargetsOffered(policy, profiles) && TargetsLegal(policy, profiles)
  {
    hide ValidPools, ValidRule, RuleLine, LegalTarget, Offered, TargetOf, Targeted, RuleLines;
    var rules := GenerationOrder(policy);
    TargetedExactly(profiles, rules);
    if TargetsOffered(policy, profiles) {
      var resolved := Targeted(profiles, rules).value;
      RuleLinesExactly(resolved);
      forall i | 0 <= i < |rules|
        ensures RuleLine(resolved[i]).Some? <==> Trim(rules[i].condition) == MATCH || LegalTarget(TargetOf(profiles, rules[i].target).value)
      {
        assert rules[i] in rules;
        RuleLineExactly(policy, profiles, rules[i], TargetOf(profiles, rules[i].target).value);
      }
      LegalByPosition(policy, profiles, rules);
    }
  }

  lemma LegalByPosition(policy: ClientPolicy, profiles: seq<Profile>, rules: seq<PolicyRule>)
    requires forall x :: x in rules <==> x in policy.rules && x.enabled
    requires forall i :: 0 <= i < |rules| ==> TargetOf(profiles, rules[i].target).Some?
    ensures TargetsLegal(policy, profiles) <==>
              forall i :: 0 <= i < |rules| ==> Trim(rules[i].condition) == MATCH || LegalTarget(TargetOf(profiles, rules[i].target).value)
  {
    hide LegalTarget, TargetOf, Trim;
    if TargetsLegal(policy, profiles) {
      assert forall i :: 0 <= i < |rules| ==> rules[i] in rules;
    }
  }

  // ------------------------------------------------------------------
  // What the generated rules are, read off their text

  /** `text` is the rule of a policy rule: its condition, the target it stands for, and its modifier. */
  ghost predicate RuleText(profiles: seq<Profile>, rule: PolicyRule, text: string) {
    exists target :: StandsFor(profiles, rule.target, target) && CompletedText(rule.condition, target, text)
  }

  ghost predicate CompletedText(condition: string, target: string, text: string) {
    if Trim(condition) == "MATCH" then text == "MATCH," + target
    else
      var fields, parts := Fields(condition), Split(text, ',');
      && 2 <= |fields| <= 3 && |parts| == |fields| + 1
      && parts[0] == fields[0] && parts[1] == fields[1] && parts[2] == target && (|fields| == 3 ==> parts[3] == "no-resolve")
  }

  /** The rules of the enabled rule sets in the given order, then those of the enabled policy rules by priority and, where
      priorities are equal, in the given order. */
  ghost predicate InOrder(ruleSets: seq<RoutingRuleSet>, policy: ClientPolicy, profiles: seq<Profile>, rules: seq<string>) {
    exists at: seq<int>, pos: seq<int> ::
      && |rules| == |at| + |pos|
      && SetRules(ruleSets, at, rules[..|at|]) && PolicyRules(policy, profiles, pos, rules[|at|..])
  }

  ghost predicate SetRules(ruleSets: seq<RoutingRuleSet>, at: seq<int>, rules: seq<string>)
    requires |rules| == |at|
  {
    && (forall i :: i in at <==> 0 <= i < |ruleSets| && ruleSets[i].enabled)
    && (forall i, k :: 0 <= i < k < |at| ==> at[i] < at[k])
    && forall k :: 0 <= k < |at| ==> at[k] in at && rules[k] == "RULE-SET," + ruleSets[at[k]].slug + "," + ruleSets[at[k]].target
  }

  ghost predicate PolicyRules(policy: ClientPolicy, profiles: seq<Profile>, pos: seq<int>, rules: seq<string>)
    requires |rules| == |pos|
  {
    && (forall i :: i in pos <==> 0 <= i < |policy.rules| && policy.rules[i].enabled)
    && (forall i, k :: 0 <= i < k < |pos| ==>
          && pos[i] in pos && pos[k] in pos
          && (|| policy.rules[pos[i]].priority < policy.rules[pos[k]].priority
              || (policy.rules[pos[i]].priority == policy.rules[pos[k]].priority && pos[i] < pos[k])))
    && forall k :: 0 <= k < |pos| ==> pos[k] in pos && RuleText(profiles, policy.rules[pos[k]], rules[k])
  }

  lemma CompletedReads(condition: string, target: string, text: string)
    requires '\n' !in condition && RuleLine(ResolvedRule(condition, target)) == Some(text)
    ensures CompletedText(condition, target, text)
  {
    hide Trim, Split, Validated, ClassicalRuleWithTarget, ClassicalKind, NoResolveKind, IsNoResolve;
    if Trim(condition) != MATCH {
      var c := Trim(condition);
      CompletedRuleRoundTrip(c, target);
      SingleLine(condition, target);
      FieldsOfTrim(condition);
    }
  }

  lemma PolicyRulesMean(policy: ClientPolicy, profiles: seq<Profile>, resolved: seq<ResolvedRule>, lines: seq<string>) returns (pos: seq<int>)
    requires Valid(policy, profiles) && Targeted(profiles, GenerationOrder(policy)) == Some(resolved) && RuleLines(resolved) == Some(lines)
    ensures |pos| == |lines| && PolicyRules(policy, profiles, pos, lines)
  {
    hide ValidPools, ValidRule, Targeted, RuleLines, RuleLine, TargetOf, StandsFor, CompletedText, SortRules, EnabledRules;
    var rules := GenerationOrder(policy);
    pos := OrderedRulesAt(ByPriority, policy.rules);
    TargetedExactly(profiles, rules);
    RuleLinesExactly(resolved);
    forall k | 0 <= k < |pos| ensures pos[k] in pos && RuleText(profiles, policy.rules[pos[k]], lines[k]) {
      var rule := policy.rules[pos[k]];
      var target := TargetOf(profiles, rule.target).value;
      assert rules[k] == rule && RuleLine(resolved[k]) == Some(lines[k]);
      TargetStandsFor(profiles, rule.target);
      OrderedRulesAreValid(policy, profiles, k);
      CompletedReads(rule.condition, target, lines[k]);
    }
    forall i, k | 0 <= i < k < |pos|
      ensures || policy.rules[pos[i]].priority < policy.rules[pos[k]].priority
              || (policy.rules[pos[i]].priority == policy.rules[pos[k]].priority && pos[i] < pos[k])
    {
      assert Earlier(ByPriority, policy.rules, pos[i], pos[k]);
    }
  }

  /** Generation keeps the order of the rule sets and sorts the rules stably by priority, with the targets they stand for. */
  lemma GeneratedInOrder(ruleSets: seq<RoutingRuleSet>, policy: ClientPolicy, profiles: seq<Profile>)
    requires Valid(policy, profiles) && Generated(ActiveRuleSets(ruleSets), policy, profiles).Some?
    ensures InOrder(ruleSets, policy, profiles, Generated(ActiveRuleSets(ruleSets), policy, profiles).value)
  {
    hide Valid, Targeted, RuleLines, PolicyRules, GenerationOrder;
    var active := ActiveRuleSets(ruleSets);
    var rules := Generated(active, policy, profiles).value;
    var resolved := Targeted(profiles, GenerationOrder(policy)).value;
    var lines := RuleLines(resolved).value;
    var at := ActiveRuleSetsListed(ruleSets);
    var pos := PolicyRulesMean(policy, profiles, resolved, lines);
    assert rules[..|at|] == RuleSetLines(active) && rules[|at|..] == lines;
    assert SetRules(ruleSets, at, rules[..|at|]) by {
      SetRulesMean(ruleSets, at);
    }
  }

  lemma SetRulesMean(ruleSets: seq<RoutingRuleSet>, at: seq<int>)
    requires Listed(ruleSets, ActiveRuleSets(ruleSets), at)
    requires forall i :: i in at <==> 0 <= i < |ruleSets| && ruleSets[i].enabled
    ensures SetRules(ruleSets, at, RuleSetLines(ActiveRuleSets(ruleSets)))
  {
    hide ActiveRuleSets, RuleSetLine;
    var active := ActiveRuleSets(ruleSets);
    forall k | 0 <= k < |at|
      ensures at[k] in at && RuleSetLines(active)[k] == "RULE-SET," + ruleSets[at[k]].slug + "," + ruleSets[at[k]].target
    {
      RuleSetLineText(active[k]);
    }
  }

  lemma RuleSetLineText(ruleSet: RoutingRuleSet)
    ensures RuleSetLine(ruleSet) == "RULE-SET," + ruleSet.slug + "," + ruleSet.target
  {
    assert RULE_SET + "," == "RULE-SET,";
  }

  /** Of two enabled rule sets the one given first has its rule first. */
  lemma RuleSetsInOrder(ruleSets: seq<RoutingRuleSet>, policy: ClientPolicy, profiles: seq<Profile>, rules: seq<string>, i: nat, k: nat)
    requires InOrder(ruleSets, policy, profiles, rules) && i < k < |ruleSets| && ruleSets[i].enabled && ruleSets[k].enabled
    ensures exists a, b :: 0 <= a < b < |rules|
                           && rules[a] == "RULE-SET," + ruleSets[i].slug + "," + ruleSets[i].target
                           && rules[b] == "RULE-SET," + ruleSets[k].slug + "," + ruleSets[k].target
  {
    hide PolicyRules, SetRules;
    var at: seq<int>, pos: seq<int> :| && |rules| == |at| + |pos|
      && SetRules(ruleSets, at, rules[..|at|]) && PolicyRules(policy, profiles, pos, rules[|at|..]);
    var a, b := SetRulesOf(ruleSets, at, rules[..|at|], i, k);
    assert rules[a] == rules[..|at|][a] && rules[b] == rules[..|at|][b];
  }

  lemma SetRulesOf(ruleSets: seq<RoutingRuleSet>, at: seq<int>, rules: seq<string>, i: nat, k: nat) returns (a: nat, b: nat)
    requires |rules| == |at| && SetRules(ruleSets, at, rules) && i < k < |ruleSets| && ruleSets[i].enabled && ruleSets[k].enabled
    ensures a < b < |rules|
    ensures rules[a] == "RULE-SET," + ruleSets[i].slug + "," + ruleSets[i].target
    ensures rules[b] == "RULE-SET," + ruleSets[k].slug + "," + ruleSets[k].target
  {
    assert i in at && k in at;
    a :| 0 <= a < |at| && at[a] == i;
    b :| 0 <= b < |at| && at[b] == k;
  }

  // ------------------------------------------------------------------
  // The explanation

  /** The rule that a path explains. */
  predicate Renders(path: TopologyPath, rule: string) {
    match path.source
    case FromProvider(slug) => rule == RULE_SET + "," + slug + "," + path.target
    case FromRule(_) =>
      if Trim(path.matcher) == MATCH then rule == MATCH + "," + path.target
      else ClassicalRuleWithTarget(Trim(path.matcher), path.target) == Some(rule)
    case ImplicitFallback => false
  }

  /** The explicit paths and the generated rules correspond one to one, in order and with the same targets. */
  lemma ExplanationRefinesGeneration(input: Inputs)
    requires Valid(input.policy, input.profiles) && TiesInIdOrder(EnabledRules(input.policy.rules))
    requires Generated(ActiveRuleSets(input.ruleSets), input.policy, input.profiles).Some?
    ensures var rules := Generated(ActiveRuleSets(input.ruleSets), input.policy, input.profiles).value;
            && |rules| == |ExplicitPaths(input)| && ExplicitPaths(input) <= Paths(input)
            && forall k :: 0 <= k < |rules| ==> Renders(ExplicitPaths(input)[k], rules[k]) && ExplicitPaths(input)[k].order == k + 1
  {
    hide ExplicitPaths, Valid, CatchesAll, Renders, TiesInIdOrder;
    var rules := Generated(ActiveRuleSets(input.ruleSets), input.policy, input.profiles).value;
    GeneratedLength(input);
    forall k | 0 <= k < |rules| ensures Renders(ExplicitPaths(input)[k], rules[k]) && ExplicitPaths(input)[k].order == k + 1 {
      RuleIsRendered(input, k);
      ExplicitPathAt(input, k);
    }
  }

  lemma SameOrder(input: Inputs)
    requires TiesInIdOrder(EnabledRules(input.policy.rules))
    ensures GenerationOrder(input.policy) == InlineRules(input)
  {
    SortsAgreeExactly(EnabledRules(input.policy.rules));
  }

  lemma GeneratedLength(input: Inputs)
    requires Generated(ActiveRuleSets(input.ruleSets), input.policy, input.profiles).Some?
    ensures |Generated(ActiveRuleSets(input.ruleSets), input.policy, input.profiles).value| == |ExplicitPaths(input)|
  {
    hide Targeted, RuleLines;
    TargetedExactly(input.profiles, GenerationOrder(input.policy));
    RuleLinesExactly(Targeted(input.profiles, GenerationOrder(input.policy)).value);
  }

  lemma RuleIsRendered(input: Inputs, k: nat)
    requires TiesInIdOrder(EnabledRules(input.policy.rules))
    requires Generated(ActiveRuleSets(input.ruleSets), input.policy, input.profiles).Some?
    requires k < |ExplicitPaths(input)| == |Generated(ActiveRuleSets(input.ruleSets), input.policy, input.profiles).value|
    ensures Renders(ExplicitPaths(input)[k], Generated(ActiveRuleSets(input.ruleSets), input.policy, input.profiles).value[k])
  {
    hide ExplicitPaths, Targeted, RuleLines, InlineRules, GenerationOrder, ClassicalRuleWithTarget, Trim, TiesInIdOrder, ActiveRuleSets;
    var rules := GenerationOrder(input.policy);
    var resolved := Targeted(input.profiles, rules).value;
    var sets := ActiveRuleSets(input.ruleSets);
    SameOrder(input);
    TargetedExactly(input.profiles, rules);
    RuleLinesExactly(resolved);
    ExplicitPathAt(input, k);
    if k >= |sets| {
      var i := k - |sets|;
      assert resolved[i] == ResolvedRule(rules[i].condition, TargetOf(input.profiles, rules[i].target).value);
      assert RuleLine(resolved[i]) == Some(RuleLines(resolved).value[i]);
    }
  }

  // ------------------------------------------------------------------
  // The meaning of generated rules

  /** The condition lines of a generated rule; providers are served under their slug. */
  function ConditionLines(rule: string, served: map<string, seq<string>>): seq<string> {
    var parts := Split(rule, ',');
    if parts[0] == RULE_SET && |parts| > 1 && parts[1] in served then served[parts[1]] else [rule]
  }

  ghost predicate LineFires(line: string, domain: string, oracle: string -> bool) {
    if Readable(line) then LineCovers(line, domain) else oracle(line)
  }

  ghost predicate RuleFires(rule: string, served: map<string, seq<string>>, domain: string, oracle: string -> bool) {
    exists i :: 0 <= i < |ConditionLines(rule, served)| && LineFires(ConditionLines(rule, served)[i], domain, oracle)
  }

  /** A completed rule means what its condition means. */
  lemma CompletedRuleMeans(condition: string, target: string)
    requires '\n' !in condition && ClassicalRuleWithTarget(Trim(condition), target).Some?
    ensures var rule := ClassicalRuleWithTarget(Trim(condition), target).value;
            LineMatcher(rule) == LineMatcher(condition) && Split(rule, ',')[0] != RULE_SET
  {
    hide Trim, Split, ClassicalRuleWithTarget, Validated, ClassicalKind, NoResolveKind, IsNoResolve, LineMatcher;
    var c := Trim(condition);
    var rule := ClassicalRuleWithTarget(c, target).value;
    CompletedRuleRoundTrip(c, target);
    SingleLine(condition, target);
    var fields := Fields(c);
    ClassicalIsUpper(fields[0]);
    FieldsOfTrim(condition);
    assert |Fields(rule)| > 1 && |fields| > 1;
    FieldsTrimmed(c, 0);
    FieldsTrimmed(c, 1);
    assert Fields(rule)[0] == fields[0] && Fields(rule)[1] == fields[1];
    SameFieldsSameMatcher(rule, c);
    SameFieldsSameMatcher(c, condition);
  }

  lemma FieldsTrimmed(line: string, i: nat)
    requires i < |Fields(line)|
    ensures Trim(Fields(line)[i]) == Fields(line)[i]
  {
    TrimFacts(Split(line, ',')[i]);
  }

  lemma SameFieldsSameMatcher(a: string, b: string)
    requires Fields(a)[0] == Fields(b)[0] && (|Fields(a)| > 1 <==> |Fields(b)| > 1)
    requires |Fields(a)| > 1 ==> Fields(a)[1] == Fields(b)[1]
    ensures LineMatcher(a) == LineMatcher(b)
  {
  }

  /** A condition without line break is its own only validated line. */
  lemma SingleLine(condition: string, target: string)
    requires '\n' !in condition && ClassicalRuleWithTarget(Trim(condition), target).Some?
    ensures Validated(Trim(condition)) == Some([Trim(condition)])
  {
    hide Trim, Judge, Fields, IsNoResolve, NoResolveKind, LegalTarget;
    var c := Trim(condition);
    TrimFacts(condition);
    SplitHead(c, [], '\n');
    NothingValidated();
    assert Lines(c) == [c];
    assert [c][..0] == [] && [c][0] == c;
    JudgeKeepsTrimmed(c);
  }

  lemma CatchAllMeans(condition: string, target: string)
    requires Trim(condition) == MATCH
    ensures LineMatcher(MATCH + "," + target) == Some(CatchAll) && LineMatcher(condition) == Some(CatchAll)
    ensures Split(MATCH + "," + target, ',')[0] != RULE_SET
  {
    hide Trim, Split;
    FieldsOfTrim(condition);
    SplitHead(MATCH, target, ',');
    MatchIsTrimmed();
  }

  lemma MatchIsTrimmed()
    ensures Trim(MATCH) == MATCH
  {
  }

  /** Slugs, as stored IDs, contain no comma, and every active rule set is served under its slug as compiled. */
  ghost predicate Serves(input: Inputs, served: map<string, seq<string>>) {
    forall s :: s in ActiveRuleSets(input.ruleSets) ==>
      ',' !in s.slug && s.slug in served && served[s.slug] == ProviderLines(input, s)
  }

  ghost predicate Means(path: TopologyPath, lines: seq<string>) {
    path.matchers == Supported(lines) && path.unsupported == AnyUnsupported(lines)
  }

  lemma SameMatcherSameMeaning(a: string, b: string)
    requires LineMatcher(a) == LineMatcher(b)
    ensures Supported([a]) == Supported([b]) && (AnyUnsupported([a]) <==> AnyUnsupported([b]))
  {
    hide LineMatcher;
    assert [a][..0] == [b][..0] == [];
    assert [a][0] == a && [b][0] == b;
  }

  lemma ProviderLineMeans(input: Inputs, order: nat, ruleSet: RoutingRuleSet, served: map<string, seq<string>>)
    requires Serves(input, served) && ruleSet in ActiveRuleSets(input.ruleSets)
    ensures Means(ProviderPath(input, order, ruleSet), ConditionLines(RuleSetLine(ruleSet), served))
  {
    hide Split, ProviderLines, ProviderPayload, Supported, AnyUnsupported, ResolveTarget, ApplyPoolState, ActiveRuleSets;
    SplitHead(RULE_SET, ruleSet.slug + "," + ruleSet.target, ',');
    SplitHead(ruleSet.slug, ruleSet.target, ',');
    assert RuleSetLine(ruleSet) == RULE_SET + [','] + (ruleSet.slug + "," + ruleSet.target);
  }

  lemma RuleLineMeans(input: Inputs, order: nat, rule: PolicyRule, target: string, served: map<string, seq<string>>)
    requires '\n' !in rule.condition && RuleLine(ResolvedRule(rule.condition, target)).Some?
    ensures Means(RulePath(input, order, rule), ConditionLines(RuleLine(ResolvedRule(rule.condition, target)).value, served))
  {
    hide Split, Trim, ClassicalRuleWithTarget, Supported, AnyUnsupported, ResolveTarget, ApplyPoolState, LineMatcher, StripPrefix, ShownTarget;
    var line := RuleLine(ResolvedRule(rule.condition, target)).value;
    if Trim(rule.condition) == MATCH {
      CatchAllMeans(rule.condition, target);
    } else {
      CompletedRuleMeans(rule.condition, target);
    }
    SameMatcherSameMeaning(line, rule.condition);
  }

  /** Every path has the matchers of the rule it explains. */
  lemma PathMeansRule(input: Inputs, served: map<string, seq<string>>, k: nat)
    requires Valid(input.policy, input.profiles) && TiesInIdOrder(EnabledRules(input.policy.rules)) && Serves(input, served)
    requires Generated(ActiveRuleSets(input.ruleSets), input.policy, input.profiles).Some?
    requires k < |ExplicitPaths(input)| == |Generated(ActiveRuleSets(input.ruleSets), input.policy, input.profiles).value|
    ensures Means(ExplicitPaths(input)[k], ConditionLines(Generated(ActiveRuleSets(input.ruleSets), input.policy, input.profiles).value[k], served))
  {
    hide ExplicitPaths, Targeted, RuleLines, InlineRules, GenerationOrder, RuleLine, RulePath, ProviderPath, RuleSetLine;
    hide Serves, Means, ConditionLines, ValidPools, ActiveRuleSets, TiesInIdOrder, ValidRule, TargetOf;
    var rules := GenerationOrder(input.policy);
    var resolved := Targeted(input.profiles, rules).value;
    var sets := ActiveRuleSets(input.ruleSets);
    SameOrder(input);
    TargetedExactly(input.profiles, rules);
    RuleLinesExactly(resolved);
    ExplicitPathAt(input, k);
    if k < |sets| {
      ProviderLineMeans(input, k + 1, sets[k], served);
    } else {
      var i := k - |sets|;
      assert RuleLine(resolved[i]) == Some(RuleLines(resolved).value[i]);
      OrderedRulesAreValid(input.policy, input.profiles, i);
      RuleLineMeans(input, k + 1, rules[i], TargetOf(input.profiles, rules[i].target).value, served);
    }
  }

  lemma OrderedRulesAreValid(policy: ClientPolicy, profiles: seq<Profile>, i: nat)
    requires Valid(policy, profiles) && i < |GenerationOrder(policy)|
    ensures '\n' !in GenerationOrder(policy)[i].condition
  {
    hide ValidPools, ClassicalRuleWithTarget, ValidTarget;
    assert GenerationOrder(policy)[i] in GenerationOrder(policy);
    assert ValidRule(policy, profiles, GenerationOrder(policy)[i]);
  }

  lemma FiringOfMeaning(path: TopologyPath, rule: string, served: map<string, seq<string>>, domain: string, oracle: string -> bool)
    requires Means(path, ConditionLines(rule, served))
    ensures AnyCovers(path.matchers, domain) ==> RuleFires(rule, served, domain, oracle)
    ensures !AnyCovers(path.matchers, domain) ==>
              (RuleFires(rule, served, domain, oracle) <==>
                 exists i :: 0 <= i < |ConditionLines(rule, served)| && !Readable(ConditionLines(rule, served)[i])
                             && oracle(ConditionLines(rule, served)[i]))
    ensures path.unsupported <==> Undecided(ConditionLines(rule, served))
  {
    hide LineMatcher, ConditionLines, Supported, AnyCovers, Readable, LineCovers;
    UnsupportedIsUndecided(ConditionLines(rule, served));
    var lines := ConditionLines(rule, served);
    SupportedAnswers(lines, domain);
    if Answers(lines, domain) {
      var i :| 0 <= i < |lines| && LineCovers(lines[i], domain);
      LineMatcherMeans(lines[i], domain);
      assert LineFires(lines[i], domain, oracle);
    }
    if i :| 0 <= i < |lines| && !Readable(lines[i]) && oracle(lines[i]) {
      assert LineFires(lines[i], domain, oracle);
    }
  }

  /** No rule before `k` can fire, whatever the unsupported lines would do. */
  ghost predicate SilentBefore(rules: seq<string>, k: int, served: map<string, seq<string>>, domain: string) {
    forall j, oracle :: 0 <= j < k && j < |rules| ==> !RuleFires(rules[j], served, domain, oracle)
  }

  lemma QuietMeansSilent(paths: seq<TopologyPath>, rules: seq<string>, k: nat, served: map<string, seq<string>>, domain: string)
    requires |rules| <= |paths| && forall j :: 0 <= j < |rules| ==> Means(paths[j], ConditionLines(rules[j], served))
    requires QuietBefore(paths, k, domain)
    ensures SilentBefore(rules, k, served, domain)
  {
    hide ConditionLines, AnyCovers, LineMatcher, RuleFires, Readable, Means;
    forall j, oracle | 0 <= j < k && j < |rules| ensures !RuleFires(rules[j], served, domain, oracle) {
      FiringOfMeaning(paths[j], rules[j], served, domain, oracle);
      assert !Certain(paths, j, domain);
    }
  }

  /** What an exact answer says about the paths. */
  lemma ExactAnswer(paths: seq<TopologyPath>, domain: string, r: Inspection)
    requires Exactly(paths, domain, r)
    ensures r.Default? ==> QuietBefore(paths, |paths|, domain)
    ensures r.Matched? || r.Uncertain? ==> r.index < |paths| && QuietBefore(paths, r.index, domain)
    ensures r.Matched? ==> Certain(paths, r.index, domain)
    ensures r.Uncertain? ==> !Certain(paths, r.index, domain) && paths[r.index].unsupported
  {
    hide AnyCovers, Exactly;
    ExactlyMeans(paths, domain, r);
    if r.Default? {
      NothingIsQuiet(paths, |paths|, domain);
    }
    if r.Matched? {
      assert AlwaysFirst(paths, r.index, domain) by {
        ExactlyUnfolded(paths, domain, r);
      }
      assert FirstToFire(paths, r.index, domain, Always) && FirstToFire(paths, r.index, domain, Never);
      FirstIsQuiet(paths, r.index, domain);
    }
    if r.Uncertain? {
      ExactlyUnfolded(paths, domain, r);
      NothingIsQuiet(paths, r.index, domain);
      if Certain(paths, r.index, domain) {
        MatchedIsExact(paths, r.index, domain);
        ExactlyUnfolded(paths, domain, Matched(r.index));
        assert false;
      }
    }
  }

  lemma ExactlyUnfolded(paths: seq<TopologyPath>, domain: string, r: Inspection)
    requires Exactly(paths, domain, r)
    ensures r.Matched? ==> AlwaysFirst(paths, r.index, domain)
    ensures r.Uncertain? ==> SometimesFirst(paths, r.index, domain) && !AlwaysFirst(paths, r.index, domain)
                             && NothingBefore(paths, r.index, domain)
  {
    hide AlwaysFirst, SometimesFirst, NothingBefore;
  }

  lemma NothingIsQuiet(paths: seq<TopologyPath>, k: nat, domain: string)
    requires NothingBefore(paths, k, domain)
    ensures QuietBefore(paths, k, domain)
  {
    hide AnyCovers;
    forall j | 0 <= j < k && j < |paths| ensures !Certain(paths, j, domain) && !paths[j].unsupported {
      assert NeverFires(paths, j, domain);
      assert !Fires(paths, j, domain, Always);
    }
  }

  lemma FirstIsQuiet(paths: seq<TopologyPath>, k: nat, domain: string)
    requires FirstToFire(paths, k, domain, Always) && FirstToFire(paths, k, domain, Never)
    ensures QuietBefore(paths, k, domain) && Certain(paths, k, domain)
  {
    hide AnyCovers;
    forall j | 0 <= j < k && j < |paths| ensures !Certain(paths, j, domain) && !paths[j].unsupported {
      assert !Fires(paths, j, domain, Always);
    }
  }

  /** The inspection of a domain predicts what the generated rules do with it. */
  lemma InspectionPredictsGeneration(input: Inputs, served: map<string, seq<string>>, domain: string, r: Inspection)
    requires Valid(input.policy, input.profiles) && TiesInIdOrder(EnabledRules(input.policy.rules)) && Serves(input, served)
    requires Generated(ActiveRuleSets(input.ruleSets), input.policy, input.profiles).Some?
    requires Exactly(Paths(input), domain, r) && (r.Default? ==> r.path == FindFallback(Paths(input)))
    ensures var rules := Generated(ActiveRuleSets(input.ruleSets), input.policy, input.profiles).value;
            && (r.Matched? || r.Uncertain? ==> r.index < |rules| && SilentBefore(rules, r.index, served, domain))
            && (r.Matched? ==> forall oracle :: RuleFires(rules[r.index], served, domain, oracle))
            && (r.Uncertain? ==> RuleFires(rules[r.index], served, domain, line => true)
                                 && !RuleFires(rules[r.index], served, domain, line => false))
            && (r.Default? ==> SilentBefore(rules, |rules|, served, domain))
  {
    hide Exactly, ExplicitPaths, Valid, Means, ConditionLines, AnyCovers, RuleFires, FindFallback, CatchesAll, TiesInIdOrder, Serves;
    hide Generated, LineMatcher, SilentBefore;
    var rules := Generated(ActiveRuleSets(input.ruleSets), input.policy, input.profiles).value;
    var paths := Paths(input);
    ExplanationRefinesGeneration(input);
    forall k | 0 <= k < |rules| ensures Means(paths[k], ConditionLines(rules[k], served)) {
      PathMeansRule(input, served, k);
    }
    ExactAnswer(paths, domain, r);
    BuiltInspection(input, domain, r);
    if r.Default? {
      QuietMeansSilent(paths, rules, |rules|, served, domain);
    } else if r.Matched? || r.Uncertain? {
      QuietMeansSilent(paths, rules, r.index, served, domain);
      AnswerFires(paths[r.index], rules[r.index], served, domain);
    }
  }

  lemma AnswerFires(path: TopologyPath, rule: string, served: map<string, seq<string>>, domain: string)
    requires Means(path, ConditionLines(rule, served))
    ensures AnyCovers(path.matchers, domain) ==> forall oracle :: RuleFires(rule, served, domain, oracle)
    ensures !AnyCovers(path.matchers, domain) && path.unsupported ==>
              RuleFires(rule, served, domain, line => true) && !RuleFires(rule, served, domain, line => false)
  {
    hide AnyCovers, ConditionLines, LineMatcher, RuleFires, Readable, Means;
    forall oracle ensures AnyCovers(path.matchers, domain) ==> RuleFires(rule, served, domain, oracle) {
      FiringOfMeaning(path, rule, served, domain, oracle);
    }
    FiringOfMeaning(path, rule, served, domain, line => true);
    FiringOfMeaning(path, rule, served, domain, line => false);
  }

  lemma CatchAllKind(line: string)
    ensures LineMatcher(line) == Some(CatchAll) <==> Fields(line)[0] == MATCH
  {
  }

  lemma NoProviderCatchesAll(input: Inputs, ruleSet: RoutingRuleSet)
    ensures CatchAll !in Supported(ProviderLines(input, ruleSet))
  {
    hide CompiledPayload, Lines, LineMatcher, Supported, Layers, ValidLine, ClassicalKind, Fields;
    var lines := ProviderLines(input, ruleSet);
    var entries, sources := Stored(input.entries, ruleSet.slug), Stored(input.sources, ruleSet.slug);
    SupportedMembers(lines, CatchAll);
    if i :| 0 <= i < |lines| && LineMatcher(lines[i]) == Some(CatchAll) {
      if ProviderPayload(input, ruleSet).Some? {
        CompiledLines(entries, ruleSet.payload, sources);
        assert lines[i] in lines;
        ValidLineKind(lines[i]);
        ClassicalIsUpper(Fields(lines[i])[0]);
        CatchAllKind(lines[i]);
      } else {
        NoLines();
      }
    }
  }

  /** A catch-all path explains a catch-all rule, and only that. */
  lemma CatchAllPath(input: Inputs, k: nat)
    requires Valid(input.policy, input.profiles) && TiesInIdOrder(EnabledRules(input.policy.rules))
    requires Generated(ActiveRuleSets(input.ruleSets), input.policy, input.profiles).Some?
    requires k < |ExplicitPaths(input)| == |Generated(ActiveRuleSets(input.ruleSets), input.policy, input.profiles).value|
    ensures CatchAll in ExplicitPaths(input)[k].matchers <==>
              Fields(Generated(ActiveRuleSets(input.ruleSets), input.policy, input.profiles).value[k])[0] == MATCH
  {
    hide ExplicitPaths, Targeted, RuleLines, InlineRules, GenerationOrder, RuleLine, RulePath, ProviderLines;
    hide ValidPools, ActiveRuleSets, TiesInIdOrder, ValidRule, TargetOf, LineMatcher, Fields, Supported;
    var rules := GenerationOrder(input.policy);
    var resolved := Targeted(input.profiles, rules).value;
    var sets := ActiveRuleSets(input.ruleSets);
    SameOrder(input);
    TargetedExactly(input.profiles, rules);
    RuleLinesExactly(resolved);
    ExplicitPathAt(input, k);
    if k < |sets| {
      NoProviderCatchesAll(input, sets[k]);
      RuleSetLineKind(sets[k]);
    } else {
      var i := k - |sets|;
      assert RuleLine(resolved[i]) == Some(RuleLines(resolved).value[i]);
      OrderedRulesAreValid(input.policy, input.profiles, i);
      InlineCatchAll(input, k + 1, rules[i], TargetOf(input.profiles, rules[i].target).value);
    }
  }

  lemma RuleSetLineKind(ruleSet: RoutingRuleSet)
    ensures Fields(RuleSetLine(ruleSet))[0] == RULE_SET
  {
    hide Split;
    SplitHead(RULE_SET, ruleSet.slug + "," + ruleSet.target, ',');
    assert RuleSetLine(ruleSet) == RULE_SET + [','] + (ruleSet.slug + "," + ruleSet.target);
  }

  lemma InlineCatchAll(input: Inputs, order: nat, rule: PolicyRule, target: string)
    requires '\n' !in rule.condition && RuleLine(ResolvedRule(rule.condition, target)).Some?
    ensures CatchAll in RulePath(input, order, rule).matchers <==>
              Fields(RuleLine(ResolvedRule(rule.condition, target)).value)[0] == MATCH
  {
    hide Fields, Trim, ClassicalRuleWithTarget, ResolveTarget, ApplyPoolState, LineMatcher, StripPrefix, ShownTarget;
    var line := RuleLine(ResolvedRule(rule.condition, target)).value;
    if Trim(rule.condition) == MATCH {
      CatchAllMeans(rule.condition, target);
    } else {
      CompletedRuleMeans(rule.condition, target);
    }
    CatchAllKind(line);
    SupportedMembers([rule.condition], CatchAll);
    assert [rule.condition][0] == rule.condition;
  }

  /** The topology shows an implicit fallback if and only if no catch-all rule is generated. */
  lemma FallbackExactly(input: Inputs)
    requires Valid(input.policy, input.profiles) && TiesInIdOrder(EnabledRules(input.policy.rules))
    requires Generated(ActiveRuleSets(input.ruleSets), input.policy, input.profiles).Some?
    ensures var rules := Generated(ActiveRuleSets(input.ruleSets), input.policy, input.profiles).value;
            |Paths(input)| == |rules| + 1 <==> forall k :: 0 <= k < |rules| ==> Fields(rules[k])[0] != MATCH
  {
    hide ExplicitPaths, Valid, TiesInIdOrder, Fields, Generated;
    var rules := Generated(ActiveRuleSets(input.ruleSets), input.policy, input.profiles).value;
    GeneratedLength(input);
    forall k | 0 <= k < |rules| ensures CatchAll in ExplicitPaths(input)[k].matchers <==> Fields(rules[k])[0] == MATCH {
      CatchAllPath(input, k);
    }
  }

  // ------------------------------------------------------------------
  // Generation leaves out profiles that cannot be rendered

  /** The registered protocols with the core capabilities they need, and the installed capabilities if known. */
  datatype Runtimes = Runtimes(adapters: map<string, set<string>>, capabilities: Option<set<string>>)

  predicate Renderable(runtimes: Runtimes, p: Profile) {
    && p.enabled && p.protocolId in runtimes.adapters
    && (runtimes.capabilities.Some? ==> runtimes.adapters[p.protocolId] <= runtimes.capabilities.value)
  }

  function AvailableProfiles(runtimes: Runtimes, profiles: seq<Profile>): (r: seq<Profile>)
    ensures forall p :: p in r <==> p in profiles && Renderable(runtimes, p)
  {
    if profiles == [] then []
    else
      assert profiles == [profiles[0]] + profiles[1..];
      (if Renderable(runtimes, profiles[0]) then [profiles[0]] else []) + AvailableProfiles(runtimes, profiles[1..])
  }

  /** The available profiles are the enabled ones whose protocol is registered and whose needs are met, in the given order. */
  lemma {:induction false} AvailableListed(runtimes: Runtimes, profiles: seq<Profile>) returns (at: seq<int>)
    ensures Listed(profiles, AvailableProfiles(runtimes, profiles), at)
    ensures forall i :: i in at <==>
              && 0 <= i < |profiles| && profiles[i].enabled && profiles[i].protocolId in runtimes.adapters
              && (runtimes.capabilities == None || runtimes.adapters[profiles[i].protocolId] <= runtimes.capabilities.value)
  {
    if profiles == [] {
      at := [];
    } else {
      var rest := AvailableListed(runtimes, profiles[1..]);
      at := ListedCons(profiles[0], profiles[1..], AvailableProfiles(runtimes, profiles[1..]), rest, Renderable(runtimes, profiles[0]));
      assert profiles == [profiles[0]] + profiles[1..];
    }
  }

  datatype Routing = Routing(pools: seq<ResolvedPool>, rules: seq<string>)

  /** There are profiles, and for them the policy is valid, resolves and has legal targets. */
  ghost predicate Generates(policy: ClientPolicy, available: seq<Profile>) {
    && available != [] && Valid(policy, available) && TargetsOffered(policy, available) && TargetsLegal(policy, available)
    && forall p :: p in policy.pools && p.enabled ==> SelectsSome(available, p)
  }

  /** The proxy groups and rules of a subscription, from the profiles that can be rendered. */
  method GenerateRouting(runtimes: Runtimes, profiles: seq<Profile>, ruleSets: seq<RoutingRuleSet>, policy: ClientPolicy)
    returns (r: Option<Routing>)
    ensures r.Some? <==> Generates(policy, AvailableProfiles(runtimes, profiles))
    ensures r.Some? ==>
              var available := AvailableProfiles(runtimes, profiles);
              Some(r.value.pools) == ResolveEach(available, policy.pools)
              && Some(r.value.rules) == Generated(ActiveRuleSets(ruleSets), policy, available)
    ensures r.Some? ==> InOrder(ruleSets, policy, AvailableProfiles(runtimes, profiles), r.value.rules)
    ensures r.Some? ==> PoolsFrom(AvailableProfiles(runtimes, profiles), policy.pools, r.value.pools)
  {
    hide InOrder, PoolsFrom, Valid, TargetsOffered, TargetsLegal, SelectsSome, ResolveEach, Generated, AvailableProfiles, ActiveRuleSets;
    var available := AvailableProfiles(runtimes, profiles);
    if available == [] {
      return None;
    }
    ResolvesExactly(available, policy.pools);
    var pools := ResolvePools(policy, available);
    if pools.None? {
      return None;
    }
    var rules := RoutingRules(ActiveRuleSets(ruleSets), policy, available);
    if rules.None? {
      return None;
    }
    GeneratedInOrder(ruleSets, policy, available);
    r := Some(Routing(pools.value, rules.value));
  }

  lemma AvailableAreEnabled(runtimes: Runtimes, profiles: seq<Profile>, name: string)
    ensures Available(AvailableProfiles(runtimes, profiles), name) ==> Available(profiles, name)
    ensures Offers(AvailableProfiles(runtimes, profiles), name) ==> Offers(profiles, name)
  {
    var available := AvailableProfiles(runtimes, profiles);
    if i :| 0 <= i < |available| && available[i].enabled && available[i].name == name {
      assert available[i] in available;
      var k :| 0 <= k < |profiles| && profiles[k] == available[i];
    }
    if i :| 0 <= i < |available| && available[i].enabled && available[i].protocolId == name {
      assert available[i] in available;
      var k :| 0 <= k < |profiles| && profiles[k] == available[i];
    }
  }

  /** A policy that is valid for fewer profiles is valid for all. */
  lemma ValidForAll(runtimes: Runtimes, profiles: seq<Profile>, policy: ClientPolicy)
    requires Valid(policy, AvailableProfiles(runtimes, profiles))
    ensures Valid(policy, profiles)
  {
    hide AvailableProfiles, Available, Offers, ClassicalRuleWithTarget, ValidUrl, ValidDisplayName, ValidPolicyId, PoolGraph;
    var available := AvailableProfiles(runtimes, profiles);
    forall p | p in policy.pools && p.enabled ensures ValidPool(policy, profiles, p) {
      PoolValidForAll(runtimes, profiles, policy, p);
    }
    forall r | r in policy.rules && r.enabled ensures ValidRule(policy, profiles, r) {
      RuleValidForAll(runtimes, profiles, policy, r);
    }
  }

  lemma PoolValidForAll(runtimes: Runtimes, profiles: seq<Profile>, policy: ClientPolicy, pool: TransportPool)
    requires ValidPool(policy, AvailableProfiles(runtimes, profiles), pool)
    ensures ValidPool(policy, profiles, pool)
  {
    hide AvailableProfiles, Available, Offers, ValidUrl;
    var available := AvailableProfiles(runtimes, profiles);
    forall i | 0 <= i < |pool.members| ensures ValidMember(policy, profiles, pool.members[i]) {
      assert ValidMember(policy, available, pool.members[i]);
      match pool.members[i] {
        case ByProfile(name) => AvailableAreEnabled(runtimes, profiles, name);
        case ByCapability(capability) => AvailableAreEnabled(runtimes, profiles, capability);
        case _ =>
      }
    }
  }

  lemma RuleValidForAll(runtimes: Runtimes, profiles: seq<Profile>, policy: ClientPolicy, rule: PolicyRule)
    requires ValidRule(policy, AvailableProfiles(runtimes, profiles), rule)
    ensures ValidRule(policy, profiles, rule)
  {
    hide AvailableProfiles, Available, Offers, ClassicalRuleWithTarget, StripPrefix, Trim;
    AvailableAreEnabled(runtimes, profiles, rule.target);
    if StripPrefix(rule.target, CAPABILITY).Some? {
      AvailableAreEnabled(runtimes, profiles, StripPrefix(rule.target, CAPABILITY).value);
    }
  }

  /** Whether a profile can be rendered depends on its protocol only, so the first profile that
      offers a capability is the same among all enabled profiles and among the available ones. */
  lemma {:induction false} SameFirstOffering(runtimes: Runtimes, profiles: seq<Profile>, capability: string)
    requires FirstOffering(AvailableProfiles(runtimes, profiles), capability).Some?
    ensures FirstOffering(profiles, capability) == FirstOffering(AvailableProfiles(runtimes, profiles), capability)
  {
    var available := AvailableProfiles(runtimes, profiles);
    var found := FirstOffering(available, capability).value;
    assert Renderable(runtimes, found);
    assert profiles == [profiles[0]] + profiles[1..];
    if profiles[0].enabled && profiles[0].protocolId == capability {
      assert Renderable(runtimes, profiles[0]);
      assert available[0] == profiles[0];
    } else {
      var rest := AvailableProfiles(runtimes, profiles[1..]);
      if Renderable(runtimes, profiles[0]) {
        assert available == [profiles[0]] + rest && available[1..] == rest;
      } else {
        assert available == [] + rest == rest;
      }
      SameFirstOffering(runtimes, profiles[1..], capability);
    }
  }

  lemma SameTarget(runtimes: Runtimes, profiles: seq<Profile>, target: string)
    requires TargetOf(AvailableProfiles(runtimes, profiles), target).Some?
    ensures TargetOf(profiles, target) == TargetOf(AvailableProfiles(runtimes, profiles), target)
  {
    hide AvailableProfiles, StripPrefix, FirstOffering;
    if StripPrefix(target, CAPABILITY).Some? {
      SameFirstOffering(runtimes, profiles, StripPrefix(target, CAPABILITY).value);
    }
  }

  lemma {:induction false} SameTargets(runtimes: Runtimes, profiles: seq<Profile>, rules: seq<PolicyRule>)
    requires Targeted(AvailableProfiles(runtimes, profiles), rules).Some?
    ensures Targeted(profiles, rules) == Targeted(AvailableProfiles(runtimes, profiles), rules)
  {
    hide AvailableProfiles, TargetOf;
    if rules != [] {
      var n := |rules| - 1;
      SameTargets(runtimes, profiles, rules[..n]);
      SameTarget(runtimes, profiles, rules[n].target);
    }
  }

  /** The explanation looks at all profiles and generation at the available ones; the rules are the same. */
  lemma SubscriptionIsExplained(runtimes: Runtimes, input: Inputs, rules: seq<string>)
    requires Valid(input.policy, AvailableProfiles(runtimes, input.profiles))
    requires Generated(ActiveRuleSets(input.ruleSets), input.policy, AvailableProfiles(runtimes, input.profiles)) == Some(rules)
    ensures Valid(input.policy, input.profiles)
    ensures Generated(ActiveRuleSets(input.ruleSets), input.policy, input.profiles) == Some(rules)
    ensures TiesInIdOrder(EnabledRules(input.policy.rules)) ==>
              |rules| == |ExplicitPaths(input)| && forall k :: 0 <= k < |rules| ==> Renders(ExplicitPaths(input)[k], rules[k])
  {
    hide Valid, AvailableProfiles, Targeted, RuleLines, ExplicitPaths, Renders, TiesInIdOrder;
    ValidForAll(runtimes, input.profiles, input.policy);
    SameTargets(runtimes, input.profiles, GenerationOrder(input.policy));
    if TiesInIdOrder(EnabledRules(input.policy.rules)) {
      ExplanationRefinesGeneration(input);
    }
  }
}
