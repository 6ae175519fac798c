/**
 * The prompt-injection and risky-instruction scanner: a fixed list of rules,
 * each a regular expression with a reason id and a severity, applied to the
 * text fields of a proposed action and to the strings inside its payload.
 *
 * Regular-expression search is a parameter `re`: given a compiled pattern and
 * a text it returns the text of the leftmost match, if any.
 */
module PromptScanner {
  import opened Wrappers
  import opened Text
  import A = Actions

  datatype ScanSeverity = Low | Medium | High | Critical

  /** `_SEVERITY_ORDER`. */
  function SeverityRank(s: ScanSeverity): (r: nat)
    ensures r <= 3
  {
    match s
    case Low => 0
    case Medium => 1
    case High => 2
    case Critical => 3
  }

  /** `severity_to_risk_level`: the risk level of the same name. */
  function SeverityToRisk(s: ScanSeverity): A.RiskLevel {
    match s
    case Low => A.Low
    case Medium => A.Medium
    case High => A.High
    case Critical => A.Critical
  }

  function RiskRank(r: A.RiskLevel): nat {
    match r
    case Low => 0
    case Medium => 1
    case High => 2
    case Critical => 3
  }

  /** The severity of the same name as a risk level: the inverse of `SeverityToRisk`. */
  function RiskToSeverity(r: A.RiskLevel): ScanSeverity {
    match r
    case Low => Low
    case Medium => Medium
    case High => High
    case Critical => Critical
  }

  /** The mapping is a bijection between the two scales that keeps their order. */
  lemma SeverityToRiskIsOrderIsomorphism()
    ensures forall s :: RiskRank(SeverityToRisk(s)) == SeverityRank(s)
    ensures forall s :: RiskToSeverity(SeverityToRisk(s)) == s
    ensures forall r :: SeverityToRisk(RiskToSeverity(r)) == r
  {
  }

  /** The enum's string value. */
  function SeverityValue(s: ScanSeverity): string {
    match s
    case Low => "low"
    case Medium => "medium"
    case High => "high"
    case Critical => "critical"
  }

  /** `ScanFinding`. */
  datatype Finding = Finding(reasonId: string, severity: ScanSeverity, message: string, field: string, snippet: string)

  /** The model's field constraints: every string at least one character long. */
  predicate ValidFinding(f: Finding) {
    f.reasonId != [] && f.message != [] && f.field != [] && f.snippet != []
  }

  /** `ScanResult.max_severity`: low when there are no findings, else the highest-ranked severity. */
  function MaxSeverity(findings: seq<Finding>): (m: ScanSeverity)
    ensures findings == [] ==> m == Low
    ensures forall i | 0 <= i < |findings| :: SeverityRank(findings[i].severity) <= SeverityRank(m)
    ensures findings != [] ==> exists i | 0 <= i < |findings| :: findings[i].severity == m
  {
    if findings == [] then Low
    else if |findings| == 1 then findings[0].severity
    else
      var rest := MaxSeverity(findings[1..]);
      assert forall i | 1 <= i < |findings| :: findings[1..][i - 1] == findings[i];
      if SeverityRank(findings[0].severity) >= SeverityRank(rest) then findings[0].severity else rest
  }

  /** `ScanResult.max_risk_level`. */
  function MaxRiskLevel(findings: seq<Finding>): (r: A.RiskLevel)
    ensures findings == [] ==> r == A.Low
    ensures forall i | 0 <= i < |findings| :: RiskRank(SeverityToRisk(findings[i].severity)) <= RiskRank(r)
    ensures findings != [] ==> exists i | 0 <= i < |findings| :: SeverityToRisk(findings[i].severity) == r
  {
    SeverityToRiskIsOrderIsomorphism();
    SeverityToRisk(MaxSeverity(findings))
  }

  /** `ScanResult.to_risk_factors`: `[reason_id] message` per finding, in order. */
  function RiskFactors(findings: seq<Finding>): (r: seq<string>)
    ensures |r| == |findings|
    ensures forall i | 0 <= i < |findings| :: r[i] == "[" + findings[i].reasonId + "] " + findings[i].message
  {
    seq(|findings|, i requires 0 <= i < |findings| => "[" + findings[i].reasonId + "] " + findings[i].message)
  }

  // ---------------------------------------------------------------------------
  // Rules and the scanner configuration
  // ---------------------------------------------------------------------------

  /** A compiled pattern: its source text and the two flags the rules use. */
  datatype Pattern = Pattern(source: string, ignoreCase: bool, dotAll: bool)

  datatype ScanRule = ScanRule(reasonId: string, severity: ScanSeverity, message: string, pattern: Pattern)

  const DefaultMaxTextChars: nat := 20000
  const DefaultMaxPayloadStrings: nat := 500
  const DefaultMaxPayloadDepth: nat := 32
  const SnippetLimit: nat := 160

  const IgnoreInstructions := ScanRule("prompt_injection.ignore_instructions", Critical,
    "Instruction override attempt detected",
    Pattern("\\bignore\\s+(all\\s+)?(previous|prior|above)\\s+(instructions?|prompts?)\\b", true, false))

  const ExfiltrateSystemPrompt := ScanRule("prompt_injection.exfiltrate_system_prompt", High,
    "Attempt to reveal protected system/developer prompt",
    Pattern("\\b(reveal|show|print|dump)\\s+(the\\s+)?(system|developer)\\s+(prompt|instructions?)\\b", true, false))

  const BypassSafetyControls := ScanRule("prompt_injection.bypass_safety_controls", High,
    "Attempt to bypass safety controls",
    Pattern("\\b(bypass|disable|override)\\s+(safety|guardrails?|polic(y|ies)|restrictions?)\\b", true, false))

  const SecretExfiltration := ScanRule("risky_instruction.secret_exfiltration", High,
    "Potential secret exfiltration instruction",
    Pattern("\\b(exfiltrat(e|ion)|send|upload|leak)\\b.{0,60}\\b(api[_\\s-]?key|token|secret|credential|password)s?\\b", true, true))

  const RemoteScriptExecution := ScanRule("risky_instruction.remote_script_execution", Critical,
    "Remote script execution pipeline detected",
    Pattern("\\bcurl\\b[^\\n|]*\\|\\s*(bash|sh)\\b", true, false))

  const DestructiveCommand := ScanRule("risky_instruction.destructive_command", Critical,
    "Destructive command pattern detected",
    Pattern("\\brm\\s+-rf\\s+/|\\b(drop|truncate)\\s+table\\b", true, false))

  /** `DEFAULT_RULES`, in order. */
  function DefaultRules(): (rs: seq<ScanRule>)
    ensures |rs| == 6
  {
    [IgnoreInstructions, ExfiltrateSystemPrompt, BypassSafetyControls,
     SecretExfiltration, RemoteScriptExecution, DestructiveCommand]
  }

  /** A configured `PromptInjectionScanner`; its attributes are never changed after construction. */
  datatype Scanner = Scanner(rules: seq<ScanRule>, maxTextChars: nat, maxPayloadStrings: nat, maxPayloadDepth: nat)

  /**
   * `PromptInjectionScanner.__init__`: the default rules unless rules are
   * given; the text limit is at least 1 and the two payload limits at least 0.
   */
  function NewScanner(rules: Option<seq<ScanRule>>, maxTextChars: int, maxPayloadStrings: int, maxPayloadDepth: int)
    : (sc: Scanner)
    ensures sc.rules == (if rules.Some? then rules.value else DefaultRules())
    ensures sc.maxTextChars >= 1
    ensures maxTextChars >= 1 ==> sc.maxTextChars == maxTextChars
    ensures maxTextChars < 1 ==> sc.maxTextChars == 1
    ensures maxPayloadStrings >= 0 ==> sc.maxPayloadStrings == maxPayloadStrings
    ensures maxPayloadStrings < 0 ==> sc.maxPayloadStrings == 0
    ensures maxPayloadDepth >= 0 ==> sc.maxPayloadDepth == maxPayloadDepth
    ensures maxPayloadDepth < 0 ==> sc.maxPayloadDepth == 0
  {
    Scanner(if rules.Some? then rules.value else DefaultRules(),
            if maxTextChars < 1 then 1 else maxTextChars,
            if maxPayloadStrings < 0 then 0 else maxPayloadStrings,
            if maxPayloadDepth < 0 then 0 else maxPayloadDepth)
  }

  /** The scanner built with no arguments. */
  function DefaultScanner(): Scanner {
    NewScanner(None, DefaultMaxTextChars, DefaultMaxPayloadStrings, DefaultMaxPayloadDepth)
  }

  // ---------------------------------------------------------------------------
  // Scanning one text
  // ---------------------------------------------------------------------------

  /** Constructing a `ScanFinding` with a string shorter than one character fails validation. */
  datatype ScanError = InvalidFinding(reasonId: string, field: string)

  /** The finding a rule reports for the matched text `m`: the stripped match, cut to 160 characters. */
  function FindingFor(rule: ScanRule, m: string, field: string): (f: Finding)
    ensures f.reasonId == rule.reasonId && f.severity == rule.severity && f.message == rule.message && f.field == field
    ensures |f.snippet| <= SnippetLimit && f.snippet <= Strip(m)
    ensures |f.snippet| == if |Strip(m)| <= SnippetLimit then |Strip(m)| else SnippetLimit
    ensures f.snippet == [] <==> IsBlank(m)
  {
    StripSlice(m);
    Finding(rule.reasonId, rule.severity, rule.message, field, Take(Strip(m), SnippetLimit))
  }

  /** The findings of the rule loop of `scan_text`, over rules in order; the first invalid finding aborts. */
  function RuleFindings(rules: seq<ScanRule>, text: string, field: string, re: (Pattern, string) -> Option<string>)
    : (r: Result<seq<Finding>, ScanError>)
    ensures r.Ok? ==> |r.value| <= |rules|
    ensures r.Ok? ==> forall k | 0 <= k < |r.value| :: ValidFinding(r.value[k]) && |r.value[k].snippet| <= SnippetLimit
    ensures r.Ok? ==> forall k | 0 <= k < |r.value| :: r.value[k].field == field
  {
    if rules == [] then Ok([])
    else RuleStep(RuleFindings(rules[..|rules| - 1], text, field, re), rules[|rules| - 1], text, field, re)
  }

  /** One iteration of the rule loop: search with one rule and append its finding. */
  function RuleStep(acc: Result<seq<Finding>, ScanError>, rule: ScanRule, text: string, field: string,
                    re: (Pattern, string) -> Option<string>): (r: Result<seq<Finding>, ScanError>)
    ensures acc.Err? ==> r == acc
    ensures acc.Ok? && !RuleHits(rule, text, re) ==> r == acc
    ensures acc.Ok? && RuleHits(rule, text, re) ==>
      var f := FindingFor(rule, re(rule.pattern, text).value, field);
      r == if ValidFinding(f) then Ok(acc.value + [f]) else Err(InvalidFinding(rule.reasonId, field))
  {
    if acc.Err? then acc
    else
      var m := re(rule.pattern, text);
      if m.None? then acc
      else
        var f := FindingFor(rule, m.value, field);
        if ValidFinding(f) then Ok(acc.value + [f]) else Err(InvalidFinding(rule.reasonId, field))
  }

  /** `scan_text`: nothing for blank text; otherwise every rule is searched in the first `maxTextChars` characters. */
  function TextFindings(sc: Scanner, text: string, field: string, re: (Pattern, string) -> Option<string>)
    : (r: Result<seq<Finding>, ScanError>)
    ensures r.Ok? ==> forall k | 0 <= k < |r.value| ::
      ValidFinding(r.value[k]) && r.value[k].field == field && |r.value[k].snippet| <= SnippetLimit
  {
    if Strip(text) == [] then Ok([])
    else RuleFindings(sc.rules, Take(text, sc.maxTextChars), field, re)
  }

  method ScanText(sc: Scanner, text: string, field: string, re: (Pattern, string) -> Option<string>)
    returns (r: Result<seq<Finding>, ScanError>)
    ensures r == TextFindings(sc, text, field, re)
  {
    if Strip(text) == [] {
      return Ok([]);
    }
    var textToScan := Take(text, sc.maxTextChars);
    var findings: seq<Finding> := [];
    for i := 0 to |sc.rules|
      invariant RuleFindings(sc.rules[..i], textToScan, field, re) == Ok(findings)
    {
      var rule := sc.rules[i];
      RuleFindingsStep(sc.rules, i, textToScan, field, re);
      var found := re(rule.pattern, textToScan);
      if found.None? {
        continue;
      }
      var finding := FindingFor(rule, found.value, field);
      if !ValidFinding(finding) {
        RuleErrorPersists(sc.rules, i + 1, textToScan, field, re);
        return Err(InvalidFinding(rule.reasonId, field));
      }
      findings := findings + [finding];
    }
    assert sc.rules[..|sc.rules|] == sc.rules;
    r := Ok(findings);
  }

  lemma RuleFindingsStep(rules: seq<ScanRule>, i: nat, text: string, field: string,
                         re: (Pattern, string) -> Option<string>)
    requires i < |rules|
    ensures RuleFindings(rules[..i + 1], text, field, re) ==
            RuleStep(RuleFindings(rules[..i], text, field, re), rules[i], text, field, re)
  {
    assert rules[..i + 1][..i] == rules[..i];
  }

  /** Once a rule's finding fails validation, the later rules are not consulted. */
  lemma {:induction false} RuleErrorPersists(rules: seq<ScanRule>, i: nat, text: string, field: string,
                                             re: (Pattern, string) -> Option<string>)
    requires i <= |rules|
    requires RuleFindings(rules[..i], text, field, re).Err?
    ensures RuleFindings(rules, text, field, re) == RuleFindings(rules[..i], text, field, re)
    decreases |rules| - i
  {
    if i == |rules| {
      assert rules[..i] == rules;
    } else {
      RuleFindingsStep(rules, i, text, field, re);
      RuleErrorPersists(rules, i + 1, text, field, re);
    }
  }

  /** A rule's pattern finds a match in the scanned text. */
  predicate RuleHits(rule: ScanRule, text: string, re: (Pattern, string) -> Option<string>) {
    re(rule.pattern, text).Some?
  }

  /**
   * `fs` is the list of findings of the rules at the strictly increasing
   * positions `idx`, which are exactly the rules whose pattern matches.
   */
  predicate FindingsIndexedBy(rules: seq<ScanRule>, text: string, field: string,
                              re: (Pattern, string) -> Option<string>, fs: seq<Finding>, idx: seq<nat>) {
    |idx| == |fs| &&
    (forall k | 0 <= k < |idx| :: idx[k] < |rules| && RuleHits(rules[idx[k]], text, re) &&
       fs[k] == FindingFor(rules[idx[k]], re(rules[idx[k]].pattern, text).value, field)) &&
    StrictlyIncreasing(idx) &&
    (forall i | 0 <= i < |rules| && RuleHits(rules[i], text, re) :: i in idx)
  }

  predicate StrictlyIncreasing(idx: seq<nat>) {
    forall k, l | 0 <= k < l < |idx| :: idx[k] < idx[l]
  }

  lemma IncreasingAppend(idx: seq<nat>, n: nat)
    requires StrictlyIncreasing(idx) && forall k | 0 <= k < |idx| :: idx[k] < n
    ensures StrictlyIncreasing(idx + [n])
  {
    var idx' := idx + [n];
    forall k, l | 0 <= k < l < |idx'| ensures idx'[k] < idx'[l] {
      assert idx'[k] == idx[k];
    }
  }

  /**
   * Each successful finding comes from its own rule, in rule order, and
   * every rule whose pattern matches contributes exactly one finding.
   */
  lemma {:induction false} FindingsFollowRules(rules: seq<ScanRule>, text: string, field: string,
                                               re: (Pattern, string) -> Option<string>)
    returns (idx: seq<nat>)
    requires RuleFindings(rules, text, field, re).Ok?
    ensures FindingsIndexedBy(rules, text, field, re, RuleFindings(rules, text, field, re).value, idx)
  {
    if rules == [] {
      idx := [];
    } else {
      var n := |rules| - 1;
      var p := rules[..n];
      RuleFindingsStep(rules, n, text, field, re);
      assert rules[..n + 1] == rules;
      var pfs := RuleFindings(p, text, field, re);
      assert pfs.Ok?;
      var pidx := FindingsFollowRules(p, text, field, re);
      if RuleHits(rules[n], text, re) {
        idx := pidx + [n];
        IndexedByHit(rules, text, field, re, pfs.value, pidx);
      } else {
        idx := pidx;
        IndexedByMiss(rules, text, field, re, pfs.value, pidx);
      }
    }
  }

  lemma IndexedByHit(rules: seq<ScanRule>, text: string, field: string,
                     re: (Pattern, string) -> Option<string>, fs: seq<Finding>, idx: seq<nat>)
    requires rules != [] && RuleHits(rules[|rules| - 1], text, re)
    requires FindingsIndexedBy(rules[..|rules| - 1], text, field, re, fs, idx)
    ensures FindingsIndexedBy(rules, text, field, re,
      fs + [FindingFor(rules[|rules| - 1], re(rules[|rules| - 1].pattern, text).value, field)], idx + [|rules| - 1])
  {
    var n := |rules| - 1;
    var p := rules[..n];
    var idx' := idx + [n];
    var fs' := fs + [FindingFor(rules[n], re(rules[n].pattern, text).value, field)];
    assert forall i | 0 <= i < n :: p[i] == rules[i];
    forall k | 0 <= k < |idx'|
      ensures idx'[k] < |rules| && RuleHits(rules[idx'[k]], text, re) &&
              fs'[k] == FindingFor(rules[idx'[k]], re(rules[idx'[k]].pattern, text).value, field)
    {
      if k < |idx| {
        assert idx'[k] == idx[k] && fs'[k] == fs[k];
      }
    }
    forall i | 0 <= i < |rules| && RuleHits(rules[i], text, re) ensures i in idx' {
      if i < n {
        assert RuleHits(p[i], text, re);
        var k :| 0 <= k < |idx| && idx[k] == i;
        assert idx'[k] == i;
      } else {
        assert idx'[|idx|] == i;
      }
    }
    IncreasingAppend(idx, n);
  }

  lemma IndexedByMiss(rules: seq<ScanRule>, text: string, field: string,
                      re: (Pattern, string) -> Option<string>, fs: seq<Finding>, idx: seq<nat>)
    requires rules != [] && !RuleHits(rules[|rules| - 1], text, re)
    requires FindingsIndexedBy(rules[..|rules| - 1], text, field, re, fs, idx)
    ensures FindingsIndexedBy(rules, text, field, re, fs, idx)
  {
    var n := |rules| - 1;
    var p := rules[..n];
    assert forall i | 0 <= i < n :: p[i] == rules[i];
    forall i | 0 <= i < |rules| && RuleHits(rules[i], text, re) ensures i in idx {
      assert RuleHits(p[i], text, re);
    }
  }

  /** Blank text (empty or whitespace only) yields no findings. */
  lemma BlankTextHasNoFindings(sc: Scanner, text: string, field: string, re: (Pattern, string) -> Option<string>)
    requires IsBlank(text)
    ensures TextFindings(sc, text, field, re) == Ok([])
  {
    StripSlice(text);
  }

  /** Characters past the first `maxTextChars` of a non-blank text never change the findings. */
  lemma OnlyScannedPrefixMatters(sc: Scanner, text: string, extra: string, field: string,
                                 re: (Pattern, string) -> Option<string>)
    requires |text| >= sc.maxTextChars
    requires !IsBlank(text)
    ensures TextFindings(sc, text + extra, field, re) == TextFindings(sc, text, field, re)
  {
    var i :| 0 <= i < |text| && !IsSpace(text[i]);
    assert (text + extra)[i] == text[i];
    StripSlice(text);
    StripSlice(text + extra);
    assert Take(text + extra, sc.maxTextChars) == Take(text, sc.maxTextChars);
  }

  // ---------------------------------------------------------------------------
  // Walking the payload
  // ---------------------------------------------------------------------------

  /** A pending entry of the traversal stack: a value, its path and its nesting depth. */
  datatype Frame = Frame(value: A.Json, path: string, depth: nat)

  /** A string found in the payload, with the path it is reported under and its depth. */
  datatype Leaf = Leaf(field: string, text: string, depth: nat)

  function Sum(xs: seq<nat>): nat {
    if xs == [] then 0 else xs[0] + Sum(xs[1..])
  }

  /** The number of nodes of a payload tree. */
  function Size(v: A.Json): (n: nat)
    ensures n >= 1
  {
    match v
    case JObject(es) => 1 + Sum(seq(|es|, i requires 0 <= i < |es| => Size(es[i].1)))
    case JArray(xs) => 1 + Sum(seq(|xs|, i requires 0 <= i < |xs| => Size(xs[i])))
    case JString(_) => 1
    case JScalar(_) => 1
  }

  /** The total number of nodes under a list of frames. */
  function SizeOf(fs: seq<Frame>): nat {
    if fs == [] then 0 else Size(fs[0].value) + SizeOf(fs[1..])
  }

  /** The frames a container pushes, in container order: `prefix.key` for objects, `prefix[i]` for arrays. */
  function Children(f: Frame): (cs: seq<Frame>)
    ensures forall k | 0 <= k < |cs| :: cs[k].depth == f.depth + 1 && f.path <= cs[k].path
  {
    match f.value
    case JObject(es) => seq(|es|, i requires 0 <= i < |es| => Frame(es[i].1, f.path + "." + es[i].0, f.depth + 1))
    case JArray(xs) => seq(|xs|, i requires 0 <= i < |xs| => Frame(xs[i], f.path + "[" + NatToString(i) + "]", f.depth + 1))
    case JString(_) => []
    case JScalar(_) => []
  }

  lemma {:induction false} SizeOfIsSum(fs: seq<Frame>)
    ensures SizeOf(fs) == Sum(seq(|fs|, i requires 0 <= i < |fs| => Size(fs[i].value)))
  {
    if fs != [] {
      SizeOfIsSum(fs[1..]);
      var all := seq(|fs|, i requires 0 <= i < |fs| => Size(fs[i].value));
      assert all[1..] == seq(|fs[1..]|, i requires 0 <= i < |fs[1..]| => Size(fs[1..][i].value));
    }
  }

  /** The children of a node hold one node fewer than the node itself. */
  lemma ChildrenSmaller(f: Frame)
    ensures SizeOf(Children(f)) == Size(f.value) - 1
  {
    var cs := Children(f);
    SizeOfIsSum(cs);
    match f.value
    case JObject(es) =>
      assert seq(|cs|, i requires 0 <= i < |cs| => Size(cs[i].value)) ==
             seq(|es|, i requires 0 <= i < |es| => Size(es[i].1));
    case JArray(xs) =>
      assert seq(|cs|, i requires 0 <= i < |cs| => Size(cs[i].value)) ==
             seq(|xs|, i requires 0 <= i < |xs| => Size(xs[i]));
    case JString(_) =>
    case JScalar(_) =>
  }

  lemma {:induction false} SizeOfAppend(fs: seq<Frame>, f: Frame)
    ensures SizeOf(fs + [f]) == SizeOf(fs) + Size(f.value)
  {
    if fs != [] {
      assert (fs + [f])[1..] == fs[1..] + [f];
      SizeOfAppend(fs[1..], f);
    }
  }

  /** A frame deeper than a non-zero depth limit is dropped unexamined. */
  predicate TooDeep(f: Frame, maxDepth: nat) {
    maxDepth > 0 && f.depth > maxDepth
  }

  /** The strings under a frame in the order the traversal yields them (no cap applied). */
  function FrameLeaves(f: Frame, maxDepth: nat): seq<Leaf>
    decreases Size(f.value), 0
  {
    if TooDeep(f, maxDepth) then []
    else match f.value
      case JString(s) => [Leaf(f.path, s, f.depth)]
      case JScalar(_) => []
      case _ =>
        ChildrenSmaller(f);
        FlattenLeaves(Children(f), maxDepth)
  }

  /** The strings under a list of frames, first frame first. */
  function FlattenLeaves(fs: seq<Frame>, maxDepth: nat): seq<Leaf>
    decreases SizeOf(fs), 1
  {
    if fs == [] then [] else FrameLeaves(fs[0], maxDepth) + FlattenLeaves(fs[1..], maxDepth)
  }

  /** The strings still to come from a stack, popped from the end. */
  function StackLeaves(stack: seq<Frame>, maxDepth: nat): seq<Leaf> {
    if stack == [] then []
    else FrameLeaves(stack[|stack| - 1], maxDepth) + StackLeaves(stack[..|stack| - 1], maxDepth)
  }

  /** The strings the traversal yields: all of them, or the first `cap` when `cap` is non-zero. */
  function Capped(leaves: seq<Leaf>, cap: nat): (r: seq<Leaf>)
    ensures r <= leaves
    ensures cap > 0 ==> |r| <= cap
    ensures cap == 0 || |leaves| <= cap ==> r == leaves
    ensures cap > 0 && |leaves| >= cap ==> |r| == cap
  {
    if cap > 0 then Take(leaves, cap) else leaves
  }

  /**
   * Pushes the children of `top` in reverse order, so that the first child
   * is popped first.
   */
  method PushChildren(stack: seq<Frame>, top: Frame, maxDepth: nat) returns (stack': seq<Frame>)
    ensures StackLeaves(stack', maxDepth) == FlattenLeaves(Children(top), maxDepth) + StackLeaves(stack, maxDepth)
    ensures SizeOf(stack') == SizeOf(Children(top)) + SizeOf(stack)
  {
    var children := Children(top);
    stack' := stack;
    var k := |children|;
    while k > 0
      invariant 0 <= k <= |children|
      invariant StackLeaves(stack', maxDepth) == FlattenLeaves(children[k..], maxDepth) + StackLeaves(stack, maxDepth)
      invariant SizeOf(stack') == SizeOf(children[k..]) + SizeOf(stack)
    {
      k := k - 1;
      assert children[k..][1..] == children[k + 1..];
      SizeOfAppend(stack', children[k]);
      assert (stack' + [children[k]])[..|stack'|] == stack';
      stack' := stack' + [children[k]];
    }
  }

  /**
   * `_iter_string_fields`: a depth-first walk with an explicit stack. Frames
   * deeper than a non-zero depth limit are skipped; each string is reported
   * with its path; the walk stops after `maxPayloadStrings` strings when that
   * limit is non-zero.
   */
  method IterStringFields(sc: Scanner, root: A.Json, prefix: string) returns (out: seq<Leaf>)
    ensures out == Capped(FrameLeaves(Frame(root, prefix, 0), sc.maxPayloadDepth), sc.maxPayloadStrings)
  {
    var maxDepth := sc.maxPayloadDepth;
    var cap := sc.maxPayloadStrings;
    ghost var all := FrameLeaves(Frame(root, prefix, 0), maxDepth);
    var stack := [Frame(root, prefix, 0)];
    assert StackLeaves(stack, maxDepth) == all by {
      assert stack[..0] == [];
    }
    out := [];
    var yielded := 0;
    while stack != []
      invariant out + StackLeaves(stack, maxDepth) == all
      invariant yielded == |out|
      invariant cap > 0 ==> yielded < cap
      decreases SizeOf(stack)
    {
      var top := stack[|stack| - 1];
      PopFrame(stack, maxDepth);
      stack := stack[..|stack| - 1];
      ghost var rest := StackLeaves(stack, maxDepth);
      FrameStep(top, maxDepth);
      if TooDeep(top, maxDepth) {
        assert [] + rest == rest;
        continue;
      }
      Regroup(out, FrameLeaves(top, maxDepth), rest, all);
      match top.value {
        case JString(s) =>
          out := out + [Leaf(top.path, s, top.depth)];
          yielded := yielded + 1;
          if cap > 0 && yielded >= cap {
            CappedAtLimit(out, rest, cap);
            return;
          }
        case JObject(_) =>
          ChildrenSmaller(top);
          stack := PushChildren(stack, top, maxDepth);
          Regroup(out, FlattenLeaves(Children(top), maxDepth), rest, all);
        case JArray(_) =>
          ChildrenSmaller(top);
          stack := PushChildren(stack, top, maxDepth);
          Regroup(out, FlattenLeaves(Children(top), maxDepth), rest, all);
        case JScalar(_) =>
          assert [] + rest == rest;
      }
    }
  }

  /** One step of the traversal: what a popped frame contributes. */
  lemma FrameStep(f: Frame, maxDepth: nat)
    ensures TooDeep(f, maxDepth) ==> FrameLeaves(f, maxDepth) == []
    ensures !TooDeep(f, maxDepth) && f.value.JString? ==>
      FrameLeaves(f, maxDepth) == [Leaf(f.path, f.value.s, f.depth)]
    ensures !TooDeep(f, maxDepth) && f.value.JScalar? ==> FrameLeaves(f, maxDepth) == []
    ensures !TooDeep(f, maxDepth) && (f.value.JObject? || f.value.JArray?) ==>
      FrameLeaves(f, maxDepth) == FlattenLeaves(Children(f), maxDepth)
  {
  }

  lemma Regroup<T>(a: seq<T>, b: seq<T>, c: seq<T>, all: seq<T>)
    ensures a + (b + c) == all <==> (a + b) + c == all
  {
    assert a + (b + c) == (a + b) + c;
  }

  /** Once `cap` strings are out, they are the capped traversal, whatever is left on the stack. */
  lemma CappedAtLimit(out: seq<Leaf>, rest: seq<Leaf>, cap: nat)
    requires cap > 0 && |out| == cap
    ensures Capped(out + rest, cap) == out
  {
    assert (out + rest)[..cap] == out;
  }

  lemma PopFrame(stack: seq<Frame>, maxDepth: nat)
    requires stack != []
    ensures StackLeaves(stack, maxDepth) == FrameLeaves(stack[|stack| - 1], maxDepth) + StackLeaves(stack[..|stack| - 1], maxDepth)
    ensures SizeOf(stack) == SizeOf(stack[..|stack| - 1]) + Size(stack[|stack| - 1].value)
  {
    assert stack == stack[..|stack| - 1] + [stack[|stack| - 1]];
    SizeOfAppend(stack[..|stack| - 1], stack[|stack| - 1]);
  }

  /**
   * Every yielded string lies at or below the frame it was found under, has
   * a path extending that frame's path, and respects a non-zero depth limit.
   */
  lemma FrameLeavesBounds(f: Frame, maxDepth: nat)
    ensures forall l | l in FrameLeaves(f, maxDepth) ::
      f.depth <= l.depth && (maxDepth > 0 ==> l.depth <= maxDepth) && f.path <= l.field
    decreases Size(f.value), 0
  {
    if !TooDeep(f, maxDepth) && (f.value.JObject? || f.value.JArray?) {
      ChildrenSmaller(f);
      FlattenLeavesBounds(Children(f), maxDepth, f.depth + 1, f.path);
    }
  }

  lemma FlattenLeavesBounds(fs: seq<Frame>, maxDepth: nat, lo: nat, p: string)
    requires forall k | 0 <= k < |fs| :: lo <= fs[k].depth && p <= fs[k].path
    ensures forall l | l in FlattenLeaves(fs, maxDepth) ::
      lo <= l.depth && (maxDepth > 0 ==> l.depth <= maxDepth) && p <= l.field
    decreases SizeOf(fs), 1
  {
    if fs != [] {
      FrameLeavesBounds(fs[0], maxDepth);
      FlattenLeavesBounds(fs[1..], maxDepth, lo, p);
    }
  }

  /** Under the default limits, every string reported from a payload lies at depth 1 to 32. */
  lemma PayloadLeavesWithinDefaultDepth(payload: seq<(string, A.Json)>)
    ensures forall l | l in FrameLeaves(Frame(A.JObject(payload), "payload", 0), DefaultMaxPayloadDepth) ::
      1 <= l.depth <= DefaultMaxPayloadDepth && "payload" <= l.field
  {
    var root := Frame(A.JObject(payload), "payload", 0);
    ChildrenSmaller(root);
    FlattenLeavesBounds(Children(root), DefaultMaxPayloadDepth, 1, "payload");
  }

  // ---------------------------------------------------------------------------
  // Scanning the payload and the whole request
  // ---------------------------------------------------------------------------

  /** Concatenation of finding lists where the first failure wins. */
  function Extend(acc: Result<seq<Finding>, ScanError>, more: Result<seq<Finding>, ScanError>)
    : (r: Result<seq<Finding>, ScanError>)
    ensures r.Ok? <==> acc.Ok? && more.Ok?
    ensures r.Ok? ==> r.value == acc.value + more.value
    ensures acc.Err? ==> r == acc
  {
    if acc.Err? then acc else if more.Err? then Err(more.error) else Ok(acc.value + more.value)
  }

  /** The strings `scan_payload` visits: the payload object walked from the path `payload`. */
  function PayloadLeaves(sc: Scanner, payload: seq<(string, A.Json)>): seq<Leaf> {
    Capped(FrameLeaves(Frame(A.JObject(payload), "payload", 0), sc.maxPayloadDepth), sc.maxPayloadStrings)
  }

  /** The findings of each visited string, in visiting order; the first failure aborts. */
  function LeafFindings(sc: Scanner, leaves: seq<Leaf>, re: (Pattern, string) -> Option<string>)
    : (r: Result<seq<Finding>, ScanError>)
    ensures r.Ok? ==> forall k | 0 <= k < |r.value| ::
      ValidFinding(r.value[k]) && exists i | 0 <= i < |leaves| :: r.value[k].field == leaves[i].field
  {
    if leaves == [] then Ok([])
    else
      var n := |leaves| - 1;
      var acc := LeafFindings(sc, leaves[..n], re);
      var r := Extend(acc, TextFindings(sc, leaves[n].text, leaves[n].field, re));
      assert r.Ok? ==> forall k | 0 <= k < |acc.value| :: r.value[k] == acc.value[k];
      assert forall i | 0 <= i < n :: leaves[..n][i] == leaves[i];
      r
  }

  lemma LeafFindingsStep(sc: Scanner, leaves: seq<Leaf>, i: nat, re: (Pattern, string) -> Option<string>)
    requires i < |leaves|
    ensures LeafFindings(sc, leaves[..i + 1], re) ==
            Extend(LeafFindings(sc, leaves[..i], re), TextFindings(sc, leaves[i].text, leaves[i].field, re))
  {
    assert leaves[..i + 1][..i] == leaves[..i];
  }

  lemma {:induction false} LeafErrorPersists(sc: Scanner, leaves: seq<Leaf>, i: nat, re: (Pattern, string) -> Option<string>)
    requires i <= |leaves|
    requires LeafFindings(sc, leaves[..i], re).Err?
    ensures LeafFindings(sc, leaves, re) == LeafFindings(sc, leaves[..i], re)
    decreases |leaves| - i
  {
    if i == |leaves| {
      assert leaves[..i] == leaves;
    } else {
      LeafFindingsStep(sc, leaves, i, re);
      LeafErrorPersists(sc, leaves, i + 1, re);
    }
  }

  /** `scan_payload`: scan every string the walk yields, under its path. */
  method ScanPayload(sc: Scanner, payload: seq<(string, A.Json)>, re: (Pattern, string) -> Option<string>)
    returns (r: Result<seq<Finding>, ScanError>)
    ensures r == LeafFindings(sc, PayloadLeaves(sc, payload), re)
  {
    var leaves := IterStringFields(sc, A.JObject(payload), "payload");
    var findings: seq<Finding> := [];
    for i := 0 to |leaves|
      invariant LeafFindings(sc, leaves[..i], re) == Ok(findings)
    {
      LeafFindingsStep(sc, leaves, i, re);
      var found := ScanText(sc, leaves[i].text, leaves[i].field, re);
      if found.Err? {
        LeafErrorPersists(sc, leaves, i + 1, re);
        return Err(found.error);
      }
      findings := findings + found.value;
    }
    assert leaves[..|leaves|] == leaves;
    r := Ok(findings);
  }

  /** Every payload finding is reported under a path beginning with `payload`. */
  lemma PayloadFindingsUnderPayload(sc: Scanner, payload: seq<(string, A.Json)>, re: (Pattern, string) -> Option<string>)
    ensures var r := LeafFindings(sc, PayloadLeaves(sc, payload), re);
      r.Ok? ==> forall k | 0 <= k < |r.value| :: "payload" <= r.value[k].field && ValidFinding(r.value[k])
  {
    var root := Frame(A.JObject(payload), "payload", 0);
    FrameLeavesBounds(root, sc.maxPayloadDepth);
    var leaves := PayloadLeaves(sc, payload);
    assert forall i | 0 <= i < |leaves| :: leaves[i] in FrameLeaves(root, sc.maxPayloadDepth);
  }

  /** The deduplication key: reason id, field, and the snippet in lower case. */
  function KeyOf(f: Finding): (string, string, string) {
    (f.reasonId, f.field, Lower(f.snippet))
  }

  function KeySet(fs: seq<Finding>): set<(string, string, string)> {
    set k | 0 <= k < |fs| :: KeyOf(fs[k])
  }

  predicate DistinctKeys(fs: seq<Finding>) {
    forall i, j | 0 <= i < j < |fs| :: KeyOf(fs[i]) != KeyOf(fs[j])
  }

  lemma KeySetAppend(fs: seq<Finding>, f: Finding)
    ensures KeySet(fs + [f]) == KeySet(fs) + {KeyOf(f)}
  {
    var g := fs + [f];
    assert forall k | 0 <= k < |fs| :: g[k] == fs[k];
    assert g[|fs|] == f;
  }

  /** `_dedupe_findings`: keep the first finding of every key, in order. */
  function Dedup(fs: seq<Finding>): (r: seq<Finding>)
    ensures DistinctKeys(r)
    ensures KeySet(r) == KeySet(fs)
    ensures forall k | 0 <= k < |r| :: r[k] in fs
  {
    if fs == [] then []
    else
      var n := |fs| - 1;
      var p := Dedup(fs[..n]);
      assert fs == fs[..n] + [fs[n]];
      KeySetAppend(fs[..n], fs[n]);
      if KeyOf(fs[n]) in KeySet(fs[..n]) then p
      else
        KeySetAppend(p, fs[n]);
        assert forall k | 0 <= k < |p| :: KeyOf(p[k]) in KeySet(p);
        p + [fs[n]]
  }

  lemma DedupStep(fs: seq<Finding>, i: nat)
    requires i < |fs|
    ensures Dedup(fs[..i + 1]) == if KeyOf(fs[i]) in KeySet(fs[..i]) then Dedup(fs[..i]) else Dedup(fs[..i]) + [fs[i]]
    ensures KeySet(fs[..i + 1]) == KeySet(fs[..i]) + {KeyOf(fs[i])}
  {
    assert fs[..i + 1][..i] == fs[..i];
    assert fs[..i + 1] == fs[..i] + [fs[i]];
    KeySetAppend(fs[..i], fs[i]);
  }

  method DedupeFindings(findings: seq<Finding>) returns (deduped: seq<Finding>)
    ensures deduped == Dedup(findings)
  {
    deduped := [];
    var seen: set<(string, string, string)> := {};
    for i := 0 to |findings|
      invariant seen == KeySet(findings[..i])
      invariant deduped == Dedup(findings[..i])
    {
      var key := KeyOf(findings[i]);
      DedupStep(findings, i);
      if key in seen {
        continue;
      }
      seen := seen + {key};
      deduped := deduped + [findings[i]];
    }
    assert findings[..|findings|] == findings;
  }

  /** `idx` picks `r` out of `fs` at strictly increasing positions. */
  predicate IndexedIn(fs: seq<Finding>, r: seq<Finding>, idx: seq<int>) {
    |idx| == |r| &&
    (forall k | 0 <= k < |idx| :: 0 <= idx[k] < |fs| && fs[idx[k]] == r[k]) &&
    (forall k, l | 0 <= k < l < |idx| :: idx[k] < idx[l])
  }

  /** The kept findings keep the order of the input: `Dedup(fs)` is a subsequence of `fs`. */
  lemma DedupInOrder(fs: seq<Finding>)
    ensures exists idx :: IndexedIn(fs, Dedup(fs), idx)
  {
    var idx := DedupPositions(fs);
  }

  lemma {:induction false} DedupPositions(fs: seq<Finding>) returns (idx: seq<int>)
    ensures IndexedIn(fs, Dedup(fs), idx)
  {
    if fs == [] {
      idx := [];
    } else {
      var n := |fs| - 1;
      var q := DedupPositions(fs[..n]);
      DedupStep(fs, n);
      assert fs[..n + 1] == fs;
      assert forall k | 0 <= k < |q| :: fs[q[k]] == fs[..n][q[k]];
      if KeyOf(fs[n]) in KeySet(fs[..n]) {
        idx := q;
      } else {
        idx := q + [n];
      }
    }
  }

  /** Each kept finding is the first finding of its key. */
  lemma {:induction false} DedupKeepsFirst(fs: seq<Finding>)
    ensures forall k | 0 <= k < |Dedup(fs)| :: exists i | 0 <= i < |fs| ::
      fs[i] == Dedup(fs)[k] && forall j | 0 <= j < i :: KeyOf(fs[j]) != KeyOf(fs[i])
  {
    if fs != [] {
      var n := |fs| - 1;
      var p := fs[..n];
      DedupKeepsFirst(p);
      assert forall i | 0 <= i < n :: p[i] == fs[i];
      var r := Dedup(fs);
      forall k | 0 <= k < |r|
        ensures exists i | 0 <= i < |fs| :: fs[i] == r[k] && forall j | 0 <= j < i :: KeyOf(fs[j]) != KeyOf(fs[i])
      {
        if k < |Dedup(p)| {
          assert r[k] == Dedup(p)[k];
          var i :| 0 <= i < |p| && p[i] == Dedup(p)[k] && forall j | 0 <= j < i :: KeyOf(p[j]) != KeyOf(p[i]);
          assert fs[i] == r[k];
          assert forall j | 0 <= j < i :: KeyOf(fs[j]) != KeyOf(fs[i]);
        } else {
          assert r[k] == fs[n] && KeyOf(fs[n]) !in KeySet(p);
          forall j | 0 <= j < n ensures KeyOf(fs[j]) != KeyOf(fs[n]) {
            assert KeyOf(p[j]) in KeySet(p);
          }
          assert fs[n] == r[k];
        }
      }
    } else {
      assert Dedup(fs) == [];
    }
  }

  /** Findings whose keys are already distinct pass through unchanged; hence deduplication is idempotent. */
  lemma {:induction false} DedupOfDistinctIsIdentity(fs: seq<Finding>)
    requires DistinctKeys(fs)
    ensures Dedup(fs) == fs
  {
    if fs != [] {
      var n := |fs| - 1;
      var p := fs[..n];
      assert DistinctKeys(p);
      DedupOfDistinctIsIdentity(p);
      assert forall k | 0 <= k < |p| :: KeyOf(p[k]) != KeyOf(fs[n]) by {
        assert forall k | 0 <= k < |p| :: p[k] == fs[k];
      }
      assert KeyOf(fs[n]) !in KeySet(p);
      assert fs == p + [fs[n]];
    }
  }

  lemma DedupIdempotent(fs: seq<Finding>)
    ensures Dedup(Dedup(fs)) == Dedup(fs)
  {
    DedupOfDistinctIsIdentity(Dedup(fs));
  }

  /** The text of the context is scanned only when it is present and non-empty. */
  function ContextFindings(sc: Scanner, context: Option<string>, re: (Pattern, string) -> Option<string>)
    : Result<seq<Finding>, ScanError>
  {
    if context.Some? && context.value != "" then TextFindings(sc, context.value, "context", re) else Ok([])
  }

  /** The findings of `scan_action_request` before deduplication. */
  function RawRequestFindings(sc: Scanner, req: A.ActionRequest, re: (Pattern, string) -> Option<string>)
    : Result<seq<Finding>, ScanError>
  {
    Extend(Extend(Extend(TextFindings(sc, req.description, "description", re),
                         TextFindings(sc, req.target, "target", re)),
                  ContextFindings(sc, req.context, re)),
           LeafFindings(sc, PayloadLeaves(sc, req.payload), re))
  }

  function RequestFindings(sc: Scanner, req: A.ActionRequest, re: (Pattern, string) -> Option<string>)
    : Result<seq<Finding>, ScanError>
  {
    var raw := RawRequestFindings(sc, req, re);
    if raw.Err? then raw else Ok(Dedup(raw.value))
  }

  /**
   * `scan_action_request`: description, target, the context when present and
   * non-empty, then the payload; the combined list is deduplicated.
   */
  method ScanActionRequest(sc: Scanner, req: A.ActionRequest, re: (Pattern, string) -> Option<string>)
    returns (r: Result<seq<Finding>, ScanError>)
    ensures r == RequestFindings(sc, req, re)
  {
    var findings := ScanText(sc, req.description, "description", re);
    if findings.Err? {
      return findings;
    }
    var found := ScanText(sc, req.target, "target", re);
    findings := Extend(findings, found);
    if findings.Err? {
      return findings;
    }
    if req.context.Some? && req.context.value != "" {
      found := ScanText(sc, req.context.value, "context", re);
    } else {
      found := Ok([]);
    }
    findings := Extend(findings, found);
    if findings.Err? {
      return findings;
    }
    found := ScanPayload(sc, req.payload, re);
    findings := Extend(findings, found);
    if findings.Err? {
      return findings;
    }
    var deduped := DedupeFindings(findings.value);
    r := Ok(deduped);
  }

  /**
   * A successful request scan holds valid findings with pairwise distinct
   * keys, and loses no key that any individual field scan reported.
   */
  lemma RequestScanProperties(sc: Scanner, req: A.ActionRequest, re: (Pattern, string) -> Option<string>)
    ensures var r := RequestFindings(sc, req, re);
      r.Ok? ==> DistinctKeys(r.value) && KeySet(r.value) == KeySet(RawRequestFindings(sc, req, re).value)
    ensures var r := RequestFindings(sc, req, re);
      r.Ok? ==> forall k | 0 <= k < |r.value| :: ValidFinding(r.value[k])
    ensures var d := TextFindings(sc, req.description, "description", re);
      RequestFindings(sc, req, re).Ok? ==> d.Ok? && KeySet(d.value) <= KeySet(RequestFindings(sc, req, re).value)
  {
    var raw := RawRequestFindings(sc, req, re);
    if raw.Ok? {
      var d := TextFindings(sc, req.description, "description", re);
      forall k | 0 <= k < |raw.value| ensures ValidFinding(raw.value[k]) {
      }
      assert forall k | 0 <= k < |d.value| :: raw.value[k] == d.value[k];
    }
  }
}
