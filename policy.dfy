/**
 * Policy schema, load-time validation and the deterministic evaluator.
 *
 * A rule matches an input when every predicate it declares holds; among the
 * enabled matching rules the winner is the one with the least key
 * (priority, -specificity, declaration index), so lower priority wins, then
 * the more specific rule, then the rule declared first.
 */
module Policy {
  import opened Wrappers
  import opened Text
  import opened Actions
  import Glob

  datatype Decision = Allow | Deny | RequireApproval

  function DecisionValue(d: Decision): string {
    match d
    case Allow => "allow"
    case Deny => "deny"
    case RequireApproval => "require_approval"
  }

  /** `_risk_severity`: the position of a level on the risk scale. */
  function RiskSeverity(level: RiskLevel): (r: nat)
    ensures r <= 3
    ensures r == 0 <==> level == Low
    ensures r == 3 <==> level == Critical
  {
    match level
    case Low => 0
    case Medium => 1
    case High => 2
    case Critical => 3
  }

  /** One governance rule; an empty collection or `None` means the predicate is not declared. */
  datatype Rule = Rule(
    id: string,
    decision: Decision,
    priority: int,
    enabled: bool,
    actionTypes: set<ActionType>,
    pathGlobs: seq<string>,
    targetContains: seq<string>,
    minRisk: Option<RiskLevel>,
    maxRisk: Option<RiskLevel>)

  /** A rule with the schema's defaults: priority 100, enabled, no predicates. */
  function NewRule(id: string, decision: Decision): (r: Rule)
    ensures r.priority == 100 && r.enabled
    ensures DeclaredKinds(r) == {}
  {
    Rule(id, decision, 100, true, {}, [], [], None, None)
  }

  datatype Config = Config(version: string, defaultDecision: Decision, rules: seq<Rule>)

  datatype ConfigError =
    | EmptyVersion
    | EmptyRuleId
    | InvertedRiskBounds(ruleId: string)
    | DuplicateRuleIds(ids: seq<string>)

  function ErrorMessage(e: ConfigError): string {
    match e
    case EmptyVersion => "version: String should have at least 1 character"
    case EmptyRuleId => "id: String should have at least 1 character"
    case InvertedRiskBounds(_) => "max_risk_level cannot be lower than min_risk_level"
    case DuplicateRuleIds(ids) => "Duplicate rule IDs are not allowed: " + Join(", ", ids)
  }

  // ---------------------------------------------------------------------------
  // Rule-level validation: risk bounds
  // ---------------------------------------------------------------------------

  /** `level` lies inside the rule's inclusive risk bounds. */
  predicate WithinRiskBounds(rule: Rule, level: RiskLevel) {
    (rule.minRisk.None? || RiskSeverity(level) >= RiskSeverity(rule.minRisk.value)) &&
    (rule.maxRisk.None? || RiskSeverity(level) <= RiskSeverity(rule.maxRisk.value))
  }

  /** `PolicyRule.validate_risk_bounds`: reject a max bound ranked below the min bound. */
  function ValidateRiskBounds(rule: Rule): (r: Result<Rule, ConfigError>)
    ensures r.Ok? ==> r.value == rule
    ensures r.Err? ==> r.error == InvertedRiskBounds(rule.id)
    ensures r.Err? ==> rule.minRisk.Some? && rule.maxRisk.Some?
  {
    if rule.minRisk.Some? && rule.maxRisk.Some? &&
       RiskSeverity(rule.maxRisk.value) < RiskSeverity(rule.minRisk.value)
    then Err(InvertedRiskBounds(rule.id))
    else Ok(rule)
  }

  /**
   * The bounds check accepts a rule exactly when some risk level satisfies
   * both of its bounds: an accepted rule is never unmatchable on risk alone,
   * and equal or absent bounds are accepted.
   */
  lemma RiskBoundsAcceptedIffSatisfiable(rule: Rule)
    ensures ValidateRiskBounds(rule).Ok? <==> exists l :: WithinRiskBounds(rule, l)
  {
    if ValidateRiskBounds(rule).Ok? {
      var l := if rule.minRisk.Some? then rule.minRisk.value else Low;
      assert WithinRiskBounds(rule, l);
    } else {
      forall l ensures !WithinRiskBounds(rule, l) {
      }
    }
  }

  // ---------------------------------------------------------------------------
  // Specificity and matching
  // ---------------------------------------------------------------------------

  /** The five kinds of match predicate a rule may declare. */
  datatype PredicateKind = ActionTypesKind | PathGlobsKind | TargetContainsKind | MinRiskKind | MaxRiskKind

  /** The predicate kinds a rule declares, whatever the number of values in each. */
  function DeclaredKinds(rule: Rule): set<PredicateKind> {
    (if rule.actionTypes != {} then {ActionTypesKind} else {}) +
    (if rule.pathGlobs != [] then {PathGlobsKind} else {}) +
    (if rule.targetContains != [] then {TargetContainsKind} else {}) +
    (if rule.minRisk.Some? then {MinRiskKind} else {}) +
    (if rule.maxRisk.Some? then {MaxRiskKind} else {})
  }

  /** `PolicyRule.specificity`: the number of declared predicate kinds, 0..5. */
  function Specificity(rule: Rule): (s: nat)
    ensures s == |DeclaredKinds(rule)|
    ensures s <= 5
  {
    SpecificityCountsKinds(rule);
    (if rule.actionTypes != {} then 1 else 0)
    + (if rule.pathGlobs != [] then 1 else 0)
    + (if rule.targetContains != [] then 1 else 0)
    + (if rule.minRisk.Some? then 1 else 0)
    + (if rule.maxRisk.Some? then 1 else 0)
  }

  lemma SpecificityCountsKinds(rule: Rule)
    ensures |DeclaredKinds(rule)| ==
      (if rule.actionTypes != {} then 1 else 0)
      + (if rule.pathGlobs != [] then 1 else 0)
      + (if rule.targetContains != [] then 1 else 0)
      + (if rule.minRisk.Some? then 1 else 0)
      + (if rule.maxRisk.Some? then 1 else 0)
  {
    KindsCount(rule.actionTypes != {}, rule.pathGlobs != [], rule.targetContains != [],
               rule.minRisk.Some?, rule.maxRisk.Some?);
  }

  lemma KindsCount(a: bool, b: bool, c: bool, d: bool, e: bool)
    ensures |(if a then {ActionTypesKind} else {}) + (if b then {PathGlobsKind} else {}) +
             (if c then {TargetContainsKind} else {}) + (if d then {MinRiskKind} else {}) +
             (if e then {MaxRiskKind} else {})|
      == (if a then 1 else 0) + (if b then 1 else 0) + (if c then 1 else 0) + (if d then 1 else 0) + (if e then 1 else 0)
  {
    var s1 := AddKindIf({}, ActionTypesKind, a);
    var s2 := AddKindIf(s1, PathGlobsKind, b);
    var s3 := AddKindIf(s2, TargetContainsKind, c);
    var s4 := AddKindIf(s3, MinRiskKind, d);
    var s5 := AddKindIf(s4, MaxRiskKind, e);
  }

  /** Adds `k` to `s` when `present`, counting the addition. */
  lemma AddKindIf(s: set<PredicateKind>, k: PredicateKind, present: bool) returns (t: set<PredicateKind>)
    requires k !in s
    ensures t == s + (if present then {k} else {})
    ensures |t| == |s| + (if present then 1 else 0)
    ensures forall x | x in t :: x in s || x == k
  {
    t := s + (if present then {k} else {});
  }

  /** What the evaluator is asked about. */
  datatype EvalInput = EvalInput(actionType: ActionType, target: string, risk: RiskLevel, context: Option<string>)

  /** Whether the predicate of one kind holds of the input, taken on its own. */
  predicate Holds(kind: PredicateKind, rule: Rule, input: EvalInput) {
    match kind
    case ActionTypesKind => input.actionType in rule.actionTypes
    case PathGlobsKind => exists g | g in rule.pathGlobs :: Glob.GlobMatch(input.target, g)
    case TargetContainsKind => exists f | f in rule.targetContains :: ContainsIgnoringCase(input.target, f)
    case MinRiskKind => rule.minRisk.Some? && RiskSeverity(input.risk) >= RiskSeverity(rule.minRisk.value)
    case MaxRiskKind => rule.maxRisk.Some? && RiskSeverity(input.risk) <= RiskSeverity(rule.maxRisk.value)
  }

  /** `PolicyEvaluator._matches`, in the Python code's order of early returns. */
  predicate Matches(rule: Rule, input: EvalInput) {
    if rule.actionTypes != {} && input.actionType !in rule.actionTypes then false
    else if rule.pathGlobs != [] && !(exists g | g in rule.pathGlobs :: Glob.GlobMatch(input.target, g)) then false
    else if rule.targetContains != [] &&
            !(exists f | f in rule.targetContains :: ContainsIgnoringCase(input.target, f)) then false
    else if rule.minRisk.Some? && RiskSeverity(input.risk) < RiskSeverity(rule.minRisk.value) then false
    else if rule.maxRisk.Some? && RiskSeverity(input.risk) > RiskSeverity(rule.maxRisk.value) then false
    else true
  }

  /**
   * A rule matches exactly when every predicate kind it declares holds;
   * undeclared predicates are vacuous.
   */
  lemma MatchesIffDeclaredHold(rule: Rule, input: EvalInput)
    ensures Matches(rule, input) <==> forall k | k in DeclaredKinds(rule) :: Holds(k, rule, input)
  {
    if Matches(rule, input) {
      forall k | k in DeclaredKinds(rule) ensures Holds(k, rule, input) {
      }
    } else {
      if rule.actionTypes != {} && input.actionType !in rule.actionTypes {
        assert ActionTypesKind in DeclaredKinds(rule) && !Holds(ActionTypesKind, rule, input);
      } else if rule.pathGlobs != [] && !(exists g | g in rule.pathGlobs :: Glob.GlobMatch(input.target, g)) {
        assert PathGlobsKind in DeclaredKinds(rule) && !Holds(PathGlobsKind, rule, input);
      } else if rule.targetContains != [] &&
                !(exists f | f in rule.targetContains :: ContainsIgnoringCase(input.target, f)) {
        assert TargetContainsKind in DeclaredKinds(rule) && !Holds(TargetContainsKind, rule, input);
      } else if rule.minRisk.Some? && RiskSeverity(input.risk) < RiskSeverity(rule.minRisk.value) {
        assert MinRiskKind in DeclaredKinds(rule) && !Holds(MinRiskKind, rule, input);
      } else {
        assert MaxRiskKind in DeclaredKinds(rule) && !Holds(MaxRiskKind, rule, input);
      }
    }
  }

  // ---------------------------------------------------------------------------
  // Selection order
  // ---------------------------------------------------------------------------

  /** The tuple `(priority, -specificity, index)` that the evaluator minimises. */
  datatype Candidate = Candidate(priority: int, negSpecificity: int, index: nat)

  /** Lexicographic order on candidate keys. */
  predicate KeyLess(a: Candidate, b: Candidate) {
    a.priority < b.priority ||
    (a.priority == b.priority && a.negSpecificity < b.negSpecificity) ||
    (a.priority == b.priority && a.negSpecificity == b.negSpecificity && a.index < b.index)
  }

  /** Enabled and matching: the rules that become candidates. */
  predicate Eligible(rule: Rule, input: EvalInput) {
    rule.enabled && Matches(rule, input)
  }

  function KeyOf(rules: seq<Rule>, i: nat): Candidate
    requires i < |rules|
  {
    Candidate(rules[i].priority, -(Specificity(rules[i]) as int), i)
  }

  /** Rule `w` is preferred to rule `j`: lower priority, then higher specificity, then earlier. */
  predicate Beats(rules: seq<Rule>, w: nat, j: nat) {
    w < |rules| && j < |rules| &&
    (rules[w].priority < rules[j].priority ||
    (rules[w].priority == rules[j].priority && Specificity(rules[w]) > Specificity(rules[j])) ||
    (rules[w].priority == rules[j].priority && Specificity(rules[w]) == Specificity(rules[j]) && w < j))
  }

  /** The candidate list the evaluation loop builds, in rule order. */
  function CandidatesOf(rules: seq<Rule>, input: EvalInput): seq<Candidate> {
    if rules == [] then []
    else
      var n := |rules| - 1;
      CandidatesOf(rules[..n], input) + (if Eligible(rules[n], input) then [KeyOf(rules, n)] else [])
  }

  lemma {:induction false} CandidatesOfExactly(rules: seq<Rule>, input: EvalInput)
    ensures forall c | c in CandidatesOf(rules, input) ::
      c.index < |rules| && Eligible(rules[c.index], input) && c == KeyOf(rules, c.index)
    ensures forall i | 0 <= i < |rules| && Eligible(rules[i], input) :: KeyOf(rules, i) in CandidatesOf(rules, input)
  {
    if rules != [] {
      var n := |rules| - 1;
      var p := rules[..n];
      CandidatesOfExactly(p, input);
      assert forall i | 0 <= i < n :: p[i] == rules[i];
      assert forall i | 0 <= i < n :: KeyOf(p, i) == KeyOf(rules, i);
    }
  }

  /** Python's `min` over candidate tuples: scan left to right, replace on strictly smaller. */
  function MinCandidate(cs: seq<Candidate>): (m: Candidate)
    requires cs != []
    ensures m in cs
    ensures forall c | c in cs :: c == m || !KeyLess(c, m)
  {
    if |cs| == 1 then cs[0]
    else
      var last := cs[|cs| - 1];
      var m := MinCandidate(cs[..|cs| - 1]);
      assert forall c | c in cs :: c in cs[..|cs| - 1] || c == last;
      if KeyLess(last, m) then last else m
  }

  /** The index of the selected rule, if any rule is eligible. */
  function Winner(rules: seq<Rule>, input: EvalInput): Option<nat> {
    var cs := CandidatesOf(rules, input);
    if cs == [] then None else Some(MinCandidate(cs).index)
  }

  /**
   * The selection lemma. No rule is selected exactly when no enabled rule
   * matches; otherwise the selected rule is enabled, matches, and beats every
   * other enabled matching rule (so it is unique, and disabled rules never win).
   */
  lemma {:induction false} SelectionIsLeastKey(rules: seq<Rule>, input: EvalInput)
    ensures Winner(rules, input).None? <==> forall i | 0 <= i < |rules| :: !Eligible(rules[i], input)
    ensures Winner(rules, input).Some? ==>
      var w := Winner(rules, input).value;
      w < |rules| && Eligible(rules[w], input) &&
      forall j | 0 <= j < |rules| && j != w && Eligible(rules[j], input) :: Beats(rules, w, j)
  {
    CandidatesOfExactly(rules, input);
    var cs := CandidatesOf(rules, input);
    if cs != [] {
      var m := MinCandidate(cs);
      forall j | 0 <= j < |rules| && j != m.index && Eligible(rules[j], input)
        ensures Beats(rules, m.index, j)
      {
        var c := KeyOf(rules, j);
        assert c in cs;
        assert !KeyLess(c, m);
      }
    }
  }

  /** A rule that is eligible and has a strictly lower priority than every other eligible rule wins. */
  lemma LowestPriorityWins(rules: seq<Rule>, input: EvalInput, i: nat)
    requires i < |rules| && Eligible(rules[i], input)
    requires forall j | 0 <= j < |rules| && j != i && Eligible(rules[j], input) :: rules[i].priority < rules[j].priority
    ensures Winner(rules, input) == Some(i)
  {
    SelectionIsLeastKey(rules, input);
    var w := Winner(rules, input).value;
    assert w == i || Beats(rules, w, i);
  }

  // ---------------------------------------------------------------------------
  // Evaluation result and trace
  // ---------------------------------------------------------------------------

  datatype TraceEntry =
    | SkipDisabled(id: string)
    | Matched(id: string, priority: int, specificity: nat)
    | SkipNoMatch(id: string)
    | DefaultApplied(decision: Decision)
    | Selected(id: string, priority: int, specificity: nat)

  /** The trace line as the Python code formats it. */
  function Render(e: TraceEntry): string {
    match e
    case SkipDisabled(id) => "skip:" + id + ":disabled"
    case Matched(id, p, s) => "match:" + id + ":priority=" + IntToString(p) + ":specificity=" + NatToString(s)
    case SkipNoMatch(id) => "skip:" + id + ":no-match"
    case DefaultApplied(d) => "default:" + DecisionValue(d) + ":no-matching-rules"
    case Selected(id, p, s) => "selected:" + id + ":priority=" + IntToString(p) + ":specificity=" + NatToString(s)
  }

  function RuleTrace(rule: Rule, input: EvalInput): TraceEntry {
    if !rule.enabled then SkipDisabled(rule.id)
    else if Matches(rule, input) then Matched(rule.id, rule.priority, Specificity(rule))
    else SkipNoMatch(rule.id)
  }

  /** The per-rule part of the trace, in rule order. */
  function RuleTraces(rules: seq<Rule>, input: EvalInput): (t: seq<TraceEntry>)
    ensures |t| == |rules|
  {
    if rules == [] then []
    else RuleTraces(rules[..|rules| - 1], input) + [RuleTrace(rules[|rules| - 1], input)]
  }

  datatype MatchedRule = MatchedRule(id: string, priority: int, specificity: nat)

  datatype EvaluationResult = EvaluationResult(decision: Decision, matched: Option<MatchedRule>, trace: seq<TraceEntry>)

  /** What `PolicyEvaluator.evaluate` returns for a structurally valid config and input. */
  function Outcome(policy: Config, input: EvalInput): EvaluationResult {
    var rules := policy.rules;
    var trace := RuleTraces(rules, input);
    match Winner(rules, input)
    case None =>
      EvaluationResult(policy.defaultDecision, None, trace + [DefaultApplied(policy.defaultDecision)])
    case Some(w) =>
      if w < |rules| then
        var r := rules[w];
        EvaluationResult(r.decision, Some(MatchedRule(r.id, r.priority, Specificity(r))),
                         trace + [Selected(r.id, r.priority, Specificity(r))])
      else EvaluationResult(policy.defaultDecision, None, trace)
  }

  /** The trace has one entry per rule, in rule order, describing why it was skipped or matched. */
  lemma {:induction false} RuleTracesDescribeRules(rules: seq<Rule>, input: EvalInput)
    ensures forall i | 0 <= i < |rules| ::
      var e := RuleTraces(rules, input)[i];
      (e.SkipDisabled? <==> !rules[i].enabled) &&
      (e.Matched? <==> Eligible(rules[i], input)) &&
      (e.SkipNoMatch? <==> rules[i].enabled && !Matches(rules[i], input)) &&
      (e.SkipDisabled? || e.Matched? || e.SkipNoMatch?) &&
      e.id == rules[i].id &&
      (e.Matched? ==> e.priority == rules[i].priority && e.specificity == Specificity(rules[i]))
  {
    if rules != [] {
      var n := |rules| - 1;
      RuleTracesDescribeRules(rules[..n], input);
      assert forall i | 0 <= i < n :: rules[..n][i] == rules[i];
    }
  }

  /**
   * Default path: the result is the config's default decision with no matched
   * rule exactly when no enabled rule matches, and the trace then ends with
   * `default:<decision>:no-matching-rules`.
   */
  lemma NoMatchGivesDefault(policy: Config, input: EvalInput)
    ensures var r := Outcome(policy, input);
      r.matched.None? <==> forall i | 0 <= i < |policy.rules| :: !Eligible(policy.rules[i], input)
    ensures var r := Outcome(policy, input);
      r.matched.None? ==>
        r.decision == policy.defaultDecision &&
        |r.trace| == |policy.rules| + 1 &&
        Render(r.trace[|r.trace| - 1]) == "default:" + DecisionValue(policy.defaultDecision) + ":no-matching-rules"
  {
    SelectionIsLeastKey(policy.rules, input);
  }

  /**
   * Selection path: when some enabled rule matches, the decision, id,
   * priority and specificity are those of the rule that beats every other
   * eligible rule, and the trace ends with exactly one `selected:` entry.
   */
  lemma SelectedRuleDecides(policy: Config, input: EvalInput)
    requires exists i | 0 <= i < |policy.rules| :: Eligible(policy.rules[i], input)
    ensures var r := Outcome(policy, input);
      exists w | 0 <= w < |policy.rules| ::
        Eligible(policy.rules[w], input) &&
        (forall j | 0 <= j < |policy.rules| && j != w && Eligible(policy.rules[j], input) :: Beats(policy.rules, w, j)) &&
        r.decision == policy.rules[w].decision &&
        r.matched == Some(MatchedRule(policy.rules[w].id, policy.rules[w].priority, Specificity(policy.rules[w]))) &&
        |r.trace| == |policy.rules| + 1 &&
        r.trace[|policy.rules|] == Selected(policy.rules[w].id, policy.rules[w].priority, Specificity(policy.rules[w]))
  {
    SelectionIsLeastKey(policy.rules, input);
    var w := Winner(policy.rules, input).value;
    assert Eligible(policy.rules[w], input);
  }

  // ---------------------------------------------------------------------------
  // The evaluator
  // ---------------------------------------------------------------------------

  /** The rule loop of `evaluate`: the trace entry of every rule and the keys of the eligible ones. */
  method CollectCandidates(rules: seq<Rule>, input: EvalInput) returns (candidates: seq<Candidate>, trace: seq<TraceEntry>)
    ensures candidates == CandidatesOf(rules, input)
    ensures trace == RuleTraces(rules, input)
  {
    candidates := [];
    trace := [];
    var idx := 0;
    while idx < |rules|
      invariant 0 <= idx <= |rules|
      invariant candidates == CandidatesOf(rules[..idx], input)
      invariant trace == RuleTraces(rules[..idx], input)
    {
      var rule := rules[idx];
      CollectStep(rules, input, idx);
      if !rule.enabled {
        trace := trace + [SkipDisabled(rule.id)];
      } else if Matches(rule, input) {
        var spec := Specificity(rule);
        candidates := candidates + [Candidate(rule.priority, -(spec as int), idx)];
        trace := trace + [Matched(rule.id, rule.priority, spec)];
      } else {
        trace := trace + [SkipNoMatch(rule.id)];
      }
      idx := idx + 1;
    }
    assert rules[..idx] == rules;
  }

  lemma CollectStep(rules: seq<Rule>, input: EvalInput, idx: nat)
    requires idx < |rules|
    ensures CandidatesOf(rules[..idx + 1], input) ==
      CandidatesOf(rules[..idx], input) + (if Eligible(rules[idx], input) then [KeyOf(rules, idx)] else [])
    ensures RuleTraces(rules[..idx + 1], input) == RuleTraces(rules[..idx], input) + [RuleTrace(rules[idx], input)]
  {
    assert rules[..idx + 1][..idx] == rules[..idx];
  }

  /** The outcome in terms of the least candidate, as the evaluation loop finds it. */
  lemma OutcomeOfLeast(policy: Config, input: EvalInput)
    ensures var cs := CandidatesOf(policy.rules, input);
      cs == [] ==>
        Outcome(policy, input) ==
          EvaluationResult(policy.defaultDecision, None,
                           RuleTraces(policy.rules, input) + [DefaultApplied(policy.defaultDecision)])
    ensures var cs := CandidatesOf(policy.rules, input);
      cs != [] ==>
        var m := MinCandidate(cs);
        m.index < |policy.rules| &&
        var r := policy.rules[m.index];
        m.priority == r.priority && -m.negSpecificity == Specificity(r) as int &&
        Outcome(policy, input) ==
          EvaluationResult(r.decision, Some(MatchedRule(r.id, m.priority, Specificity(r))),
                           RuleTraces(policy.rules, input) + [Selected(r.id, m.priority, Specificity(r))])
  {
    CandidatesOfExactly(policy.rules, input);
  }

  /** Either a proposed action (whose risk must be supplied) or a ready evaluation input. */
  datatype Subject = FromRequest(request: ActionRequest) | FromInput(input: EvalInput)

  const MissingRiskMessage := "risk_level is required when evaluating an ActionRequest"

  /**
   * `PolicyEvaluator.evaluate`: one pass over the rules building the candidate
   * list and the trace, then the least candidate. The only error is a proposed
   * action given without a risk level.
   */
  method Evaluate(policy: Config, subject: Subject, riskLevel: Option<RiskLevel>)
    returns (r: Result<EvaluationResult, string>)
    ensures subject.FromRequest? && riskLevel.None? ==> r == Err(MissingRiskMessage)
    ensures subject.FromInput? ==> r == Ok(Outcome(policy, subject.input))
    ensures subject.FromRequest? && riskLevel.Some? ==>
      r == Ok(Outcome(policy, EvalInput(subject.request.actionType, subject.request.target,
                                        riskLevel.value, subject.request.context)))
  {
    var input: EvalInput;
    match subject {
      case FromRequest(req) =>
        if riskLevel.None? {
          return Err(MissingRiskMessage);
        }
        input := EvalInput(req.actionType, req.target, riskLevel.value, req.context);
      case FromInput(i) =>
        input := i;
    }

    var rules := policy.rules;
    var candidates, trace := CollectCandidates(rules, input);
    if candidates == [] {
      trace := trace + [DefaultApplied(policy.defaultDecision)];
      return Ok(EvaluationResult(policy.defaultDecision, None, trace));
    }

    var best := MinCandidate(candidates);
    OutcomeOfLeast(policy, input);
    var rule := rules[best.index];
    var specificity := -best.negSpecificity;
    trace := trace + [Selected(rule.id, best.priority, specificity)];
    r := Ok(EvaluationResult(rule.decision, Some(MatchedRule(rule.id, best.priority, specificity)), trace));
  }

  // ---------------------------------------------------------------------------
  // Config validation
  // ---------------------------------------------------------------------------

  function IdSet(rules: seq<Rule>): set<string> {
    set i | 0 <= i < |rules| :: rules[i].id
  }

  /** Ids that repeat an earlier id, in the order the validation loop discovers them. */
  function DuplicateIdList(rules: seq<Rule>): seq<string> {
    if rules == [] then []
    else
      var p := rules[..|rules| - 1];
      DuplicateIdList(p) + (if rules[|rules| - 1].id in IdSet(p) then [rules[|rules| - 1].id] else [])
  }

  /** Two different rules carry the id `x`. */
  predicate IsDuplicated(rules: seq<Rule>, x: string) {
    exists i, j | 0 <= i < j < |rules| :: rules[i].id == x && rules[j].id == x
  }

  predicate UniqueIds(rules: seq<Rule>) {
    forall i, j | 0 <= i < j < |rules| :: rules[i].id != rules[j].id
  }

  lemma {:induction false} DuplicateIdListExactly(rules: seq<Rule>)
    ensures forall x :: x in DuplicateIdList(rules) <==> IsDuplicated(rules, x)
  {
    if rules != [] {
      var n := |rules| - 1;
      var p := rules[..n];
      DuplicateIdListExactly(p);
      assert forall i | 0 <= i < n :: p[i] == rules[i];
      forall x ensures x in DuplicateIdList(rules) <==> IsDuplicated(rules, x) {
        if IsDuplicated(rules, x) && !IsDuplicated(p, x) {
          var i, j :| 0 <= i < j < |rules| && rules[i].id == x && rules[j].id == x;
          assert j == n;
          assert p[i].id == x;
        }
        if x in DuplicateIdList(rules) && !(x in DuplicateIdList(p)) {
          var i :| 0 <= i < n && p[i].id == x;
          assert rules[i].id == x && rules[n].id == x;
        }
      }
    }
  }

  lemma UniqueIffNoDuplicates(rules: seq<Rule>)
    ensures UniqueIds(rules) <==> DuplicateIdList(rules) == []
  {
    DuplicateIdListExactly(rules);
    if DuplicateIdList(rules) != [] {
      assert DuplicateIdList(rules)[0] in DuplicateIdList(rules);
    }
  }

  /**
   * `PolicyConfig.validate_unique_rule_ids`: a loop over the rules growing the
   * `seen` and `duplicates` sets. A config with a repeated id is rejected, and
   * the error lists each repeated id once, in sorted order.
   */
  method ValidateUniqueRuleIds(rules: seq<Rule>) returns (r: Result<(), ConfigError>)
    ensures r.Ok? <==> UniqueIds(rules)
    ensures r.Err? ==> r.error.DuplicateRuleIds? && StrictlySorted(r.error.ids) &&
                       forall x :: x in r.error.ids <==> IsDuplicated(rules, x)
    ensures r.Err? ==> r.error == DuplicateRuleIds(SortedSet(DuplicateIdList(rules)))
  {
    var seen: set<string> := {};
    var duplicates: seq<string> := [];
    for i := 0 to |rules|
      invariant seen == IdSet(rules[..i])
      invariant duplicates == DuplicateIdList(rules[..i])
    {
      assert rules[..i + 1][..i] == rules[..i];
      if rules[i].id in seen {
        duplicates := duplicates + [rules[i].id];
      }
      seen := seen + {rules[i].id};
      assert IdSet(rules[..i + 1]) == IdSet(rules[..i]) + {rules[i].id} by {
        assert forall k | 0 <= k < i :: rules[..i + 1][k] == rules[..i][k];
      }
    }
    assert rules[..|rules|] == rules;
    UniqueIffNoDuplicates(rules);
    DuplicateIdListExactly(rules);
    if duplicates != [] {
      var dupes := SortedSet(duplicates);
      assert forall x :: x in dupes <==> x in Elems(duplicates);
      return Err(DuplicateRuleIds(dupes));
    }
    return Ok(());
  }

  /** A rule passes field and bounds validation. */
  predicate ValidRule(rule: Rule) {
    rule.id != "" && ValidateRiskBounds(rule).Ok?
  }

  /** Everything load-time validation demands of a config. */
  predicate ValidConfig(policy: Config) {
    policy.version != "" &&
    (forall i | 0 <= i < |policy.rules| :: ValidRule(policy.rules[i])) &&
    UniqueIds(policy.rules)
  }

  function FirstRuleError(rules: seq<Rule>): (e: Option<ConfigError>)
    ensures e.None? <==> forall i | 0 <= i < |rules| :: ValidRule(rules[i])
  {
    if rules == [] then None
    else if rules[0].id == "" then Some(EmptyRuleId)
    else if ValidateRiskBounds(rules[0]).Err? then Some(ValidateRiskBounds(rules[0]).error)
    else
      var e := FirstRuleError(rules[1..]);
      assert forall i | 1 <= i < |rules| :: rules[1..][i - 1] == rules[i];
      e
  }

  /**
   * `load_policy_from_dict` on an already-typed config: the field and rule
   * validators first, then the unique-id check. The error is the prefix
   * followed by the message of the first check that fails; pydantic's own
   * rendering, which lists every failing field, is not modelled.
   */
  function LoadPolicy(policy: Config): (r: Result<Config, string>)
    ensures r.Ok? <==> ValidConfig(policy)
    ensures r.Ok? ==> r.value == policy
  {
    UniqueIffNoDuplicates(policy.rules);
    if policy.version == "" then Err("Invalid policy configuration: " + ErrorMessage(EmptyVersion))
    else match FirstRuleError(policy.rules)
      case Some(e) => Err("Invalid policy configuration: " + ErrorMessage(e))
      case None =>
        var dups := DuplicateIdList(policy.rules);
        if dups != [] then Err("Invalid policy configuration: " + ErrorMessage(DuplicateRuleIds(SortedSet(dups))))
        else Ok(policy)
  }
}
