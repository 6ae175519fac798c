/**
 * The deterministic CI gate: every proposed action is scanned and evaluated
 * against a policy, the decisions are totalled, the reasons behind
 * non-allow decisions are counted and ranked, and the worst decision
 * becomes the process exit code.
 */
module Ci {
  import opened Wrappers
  import opened Text
  import opened Actions
  import opened Policy
  import PS = PromptScanner
  import Presets

  /** `REPORT_SCHEMA_VERSION`. */
  const SchemaVersion := "1"

  /** At most this many blocking reasons are reported. */
  const TopReasonLimit := 10

  // ---------------------------------------------------------------------------
  // Exit codes
  // ---------------------------------------------------------------------------

  /** `_decision_exit_code`: 3 if anything is denied, else 2 if anything needs approval, else 0. */
  function DecisionExitCode(decisions: seq<Decision>): (code: int)
    ensures code == 3 <==> Deny in decisions
    ensures code == 2 <==> Deny !in decisions && RequireApproval in decisions
    ensures code == 0 <==> forall i | 0 <= i < |decisions| :: decisions[i] == Allow
  {
    if Deny in decisions then 3
    else if RequireApproval in decisions then 2
    else
      assert forall i | 0 <= i < |decisions| :: decisions[i] == Allow by {
        forall i | 0 <= i < |decisions| ensures decisions[i] == Allow {
          assert decisions[i] in decisions;
        }
      }
      0
  }

  /** The worst decision wins: the code of a concatenation is the larger of the two codes. */
  lemma ExitCodeOfConcat(a: seq<Decision>, b: seq<Decision>)
    ensures DecisionExitCode(a + b) ==
            if DecisionExitCode(a) >= DecisionExitCode(b) then DecisionExitCode(a) else DecisionExitCode(b)
  {
    assert Deny in a + b <==> Deny in a || Deny in b;
    assert RequireApproval in a + b <==> RequireApproval in a || RequireApproval in b;
  }

  // ---------------------------------------------------------------------------
  // Totals
  // ---------------------------------------------------------------------------

  /** The `totals` dictionary: one counter per decision value. */
  datatype Totals = Totals(allow: nat, requireApproval: nat, deny: nat)

  /** `totals[decision.value] += 1`. */
  function Count(t: Totals, d: Decision): Totals {
    match d
    case Allow => t.(allow := t.allow + 1)
    case RequireApproval => t.(requireApproval := t.requireApproval + 1)
    case Deny => t.(deny := t.deny + 1)
  }

  /** The totals after counting every decision in order, starting from zeros. */
  function TotalsOf(decisions: seq<Decision>): (t: Totals)
    ensures t.allow == multiset(decisions)[Allow]
    ensures t.requireApproval == multiset(decisions)[RequireApproval]
    ensures t.deny == multiset(decisions)[Deny]
    ensures t.allow + t.requireApproval + t.deny == |decisions|
  {
    if decisions == [] then Totals(0, 0, 0)
    else
      var n := |decisions| - 1;
      assert decisions == decisions[..n] + [decisions[n]];
      Count(TotalsOf(decisions[..n]), decisions[n])
  }

  /** The exit code can be read off the totals. */
  lemma ExitCodeFromTotals(decisions: seq<Decision>)
    ensures var t := TotalsOf(decisions);
      DecisionExitCode(decisions) == if t.deny > 0 then 3 else if t.requireApproval > 0 then 2 else 0
  {
    assert Deny in decisions <==> Deny in multiset(decisions);
    assert RequireApproval in decisions <==> RequireApproval in multiset(decisions);
  }

  // ---------------------------------------------------------------------------
  // Reason counting
  // ---------------------------------------------------------------------------

  /** `CIReasonCount`. */
  datatype ReasonCount = ReasonCount(reason: string, count: nat)

  /** The `reason_counts` dictionary as its items in insertion order: no reason twice. */
  predicate DistinctReasons(cs: seq<ReasonCount>) {
    forall i, j | 0 <= i < j < |cs| :: cs[i].reason != cs[j].reason
  }

  /** The total count recorded for `key` (a dictionary holds at most one entry per key). */
  function CountOf(cs: seq<ReasonCount>, key: string): nat {
    if cs == [] then 0
    else (if cs[0].reason == key then cs[0].count else 0) + CountOf(cs[1..], key)
  }

  function Reasons(cs: seq<ReasonCount>): set<string> {
    set i | 0 <= i < |cs| :: cs[i].reason
  }

  /** `reason_counts[key] = reason_counts.get(key, 0) + 1`. */
  function Bump(cs: seq<ReasonCount>, key: string): seq<ReasonCount> {
    if cs == [] then [ReasonCount(key, 1)]
    else if cs[0].reason == key then [cs[0].(count := cs[0].count + 1)] + cs[1..]
    else [cs[0]] + Bump(cs[1..], key)
  }

  lemma ReasonsCons(c: ReasonCount, cs: seq<ReasonCount>)
    ensures Reasons([c] + cs) == {c.reason} + Reasons(cs)
  {
    var r := [c] + cs;
    assert r[0] == c;
    forall x | x in Reasons(r) ensures x in {c.reason} + Reasons(cs) {
      var i :| 0 <= i < |r| && r[i].reason == x;
      if i > 0 { assert cs[i - 1] == r[i]; }
    }
    forall x | x in Reasons(cs) ensures x in Reasons(r) {
      var i :| 0 <= i < |cs| && cs[i].reason == x;
      assert r[i + 1] == cs[i];
    }
  }

  /** Bumping adds one to the count of `key` and leaves every other count alone. */
  lemma {:induction false} BumpCounts(cs: seq<ReasonCount>, key: string)
    ensures forall k :: CountOf(Bump(cs, key), k) == CountOf(cs, k) + if k == key then 1 else 0
  {
    if cs != [] && cs[0].reason != key {
      BumpCounts(cs[1..], key);
      assert Bump(cs, key)[1..] == Bump(cs[1..], key);
    } else if cs != [] {
      assert Bump(cs, key)[1..] == cs[1..];
    }
  }

  /** Bumping records `key` and no other reason. */
  lemma {:induction false} BumpReasonSet(cs: seq<ReasonCount>, key: string)
    ensures Reasons(Bump(cs, key)) == Reasons(cs) + {key}
  {
    var r := Bump(cs, key);
    if cs == [] {
      ReasonsCons(ReasonCount(key, 1), []);
    } else {
      assert cs == [cs[0]] + cs[1..];
      ReasonsCons(cs[0], cs[1..]);
      if cs[0].reason == key {
        ReasonsCons(r[0], cs[1..]);
        assert r == [r[0]] + cs[1..];
      } else {
        BumpReasonSet(cs[1..], key);
        ReasonsCons(cs[0], Bump(cs[1..], key));
      }
    }
  }

  /** Bumping keeps every reason once. */
  lemma {:induction false} BumpDistinct(cs: seq<ReasonCount>, key: string)
    requires DistinctReasons(cs)
    ensures DistinctReasons(Bump(cs, key))
  {
    var r := Bump(cs, key);
    if cs != [] && cs[0].reason != key {
      var t := Bump(cs[1..], key);
      BumpDistinct(cs[1..], key);
      BumpReasonSet(cs[1..], key);
      assert cs[0].reason !in Reasons(cs[1..]) by {
        forall i | 0 <= i < |cs[1..]| ensures cs[1..][i].reason != cs[0].reason {
          assert cs[1..][i] == cs[i + 1];
        }
      }
      forall i, j | 0 <= i < j < |r| ensures r[i].reason != r[j].reason {
        assert r[j] == t[j - 1];
        assert t[j - 1].reason in Reasons(t);
        if i > 0 { assert r[i] == t[i - 1]; }
      }
    }
  }

  /** Bumping keeps every count positive. */
  lemma {:induction false} BumpPositive(cs: seq<ReasonCount>, key: string)
    requires Positive(cs)
    ensures Positive(Bump(cs, key))
  {
    if cs != [] && cs[0].reason != key {
      BumpPositive(cs[1..], key);
      var r := Bump(cs, key);
      forall i | 0 <= i < |r| ensures r[i].count >= 1 {
        if i > 0 { assert r[i] == Bump(cs[1..], key)[i - 1]; }
      }
    }
  }

  /** Every count is at least one. */
  predicate Positive(cs: seq<ReasonCount>) {
    forall i | 0 <= i < |cs| :: cs[i].count >= 1
  }

  /** The dictionary after bumping each key in order. */
  function Tallied(cs: seq<ReasonCount>, keys: seq<string>): seq<ReasonCount> {
    if keys == [] then cs
    else Bump(Tallied(cs, keys[..|keys| - 1]), keys[|keys| - 1])
  }

  /** Tallying counts every key as often as it occurs. */
  lemma {:induction false} TalliedCounts(cs: seq<ReasonCount>, keys: seq<string>)
    ensures forall k :: CountOf(Tallied(cs, keys), k) == CountOf(cs, k) + multiset(keys)[k]
    ensures Reasons(Tallied(cs, keys)) == Reasons(cs) + Elems(keys)
    ensures DistinctReasons(cs) ==> DistinctReasons(Tallied(cs, keys))
    ensures Positive(cs) ==> Positive(Tallied(cs, keys))
  {
    if keys != [] {
      var n := |keys| - 1;
      assert keys == keys[..n] + [keys[n]];
      ElemsAppend(keys[..n], [keys[n]]);
      TalliedCounts(cs, keys[..n]);
      BumpCounts(Tallied(cs, keys[..n]), keys[n]);
      BumpReasonSet(Tallied(cs, keys[..n]), keys[n]);
      if DistinctReasons(cs) {
        BumpDistinct(Tallied(cs, keys[..n]), keys[n]);
      }
      if Positive(cs) {
        BumpPositive(Tallied(cs, keys[..n]), keys[n]);
      }
    }
  }

  lemma {:induction false} TalliedAppend(cs: seq<ReasonCount>, a: seq<string>, b: seq<string>)
    ensures Tallied(cs, a + b) == Tallied(Tallied(cs, a), b)
  {
    if b != [] {
      var n := |b| - 1;
      assert (a + b)[..|a| + n] == a + b[..n];
      assert (a + b)[|a| + n] == b[n];
      TalliedAppend(cs, a, b[..n]);
    } else {
      assert a + b == a;
    }
  }

  /** With no reason twice, an entry's count is the count recorded for its reason. */
  lemma {:induction false} EntryCount(cs: seq<ReasonCount>, i: nat)
    requires DistinctReasons(cs)
    requires i < |cs|
    ensures cs[i].count == CountOf(cs, cs[i].reason)
  {
    if i == 0 {
      assert cs[0].reason !in Reasons(cs[1..]);
      NotRecorded(cs[1..], cs[0].reason);
    } else {
      assert cs[1..][i - 1] == cs[i];
      EntryCount(cs[1..], i - 1);
    }
  }

  lemma {:induction false} NotRecorded(cs: seq<ReasonCount>, key: string)
    requires key !in Reasons(cs)
    ensures CountOf(cs, key) == 0
  {
    if cs != [] {
      assert cs[0].reason in Reasons(cs);
      assert Reasons(cs[1..]) <= Reasons(cs) by {
        forall x | x in Reasons(cs[1..]) ensures x in Reasons(cs) {
          var i :| 0 <= i < |cs[1..]| && cs[1..][i].reason == x;
          assert cs[i + 1].reason == x;
        }
      }
      NotRecorded(cs[1..], key);
    }
  }

  // ---------------------------------------------------------------------------
  // Ranking
  // ---------------------------------------------------------------------------

  /** The sort key `(-count, reason)`: a higher count first, ties by reason. */
  function RankBefore(a: ReasonCount, b: ReasonCount): bool {
    a.count > b.count || (a.count == b.count && StrLess(a.reason, b.reason))
  }

  lemma RankBeforeIsStrictOrder()
    ensures StrictOrder(RankBefore)
  {
    forall a: ReasonCount ensures !RankBefore(a, a) { StrLessIrreflexive(a.reason); }
    forall a: ReasonCount, b: ReasonCount, c: ReasonCount | RankBefore(a, b) && RankBefore(b, c)
      ensures RankBefore(a, c)
    {
      if a.count == b.count == c.count { StrLessTransitive(a.reason, b.reason, c.reason); }
    }
  }

  /** `sorted(..., key=lambda item: (-item.count, item.reason))[:10]`. */
  function TopReasons(cs: seq<ReasonCount>): (r: seq<ReasonCount>)
    ensures |r| <= TopReasonLimit
    ensures multiset(r) <= multiset(cs)
    ensures SortedBy(r, RankBefore)
  {
    RankBeforeIsStrictOrder();
    var sorted := SortBy(cs, RankBefore);
    var r := Take(sorted, TopReasonLimit);
    assert sorted == r + sorted[|r|..];
    r
  }

  // ---------------------------------------------------------------------------
  // One action
  // ---------------------------------------------------------------------------

  /** What one pass of the loop learns about one action. */
  datatype Assessment = Assessment(request: ActionRequest, risk: RiskLevel, result: EvaluationResult,
                                   findings: seq<PS.Finding>)

  /**
   * The impact analysis (`analyze`), the default prompt scan and the policy
   * evaluation of one action; the scan's finding validation is the one
   * failure.
   */
  function Assess(policy: Config, scanner: PS.Scanner, request: ActionRequest, analyze: ActionRequest -> RiskLevel,
                  re: (PS.Pattern, string) -> Option<string>): Result<Assessment, PS.ScanError>
  {
    var risk := analyze(request);
    var scan := PS.RequestFindings(scanner, request, re);
    if scan.Err? then Err(scan.error)
    else
      var input := EvalInput(request.actionType, request.target, risk, request.context);
      Ok(Assessment(request, risk, Outcome(policy, input), scan.value))
  }

  /**
   * An assessment records the action, the analysed risk, the evaluation of
   * the action at that risk and the scan's findings; it fails exactly when
   * the scan does.
   */
  lemma AssessKeepsRequest(policy: Config, scanner: PS.Scanner, request: ActionRequest,
                           analyze: ActionRequest -> RiskLevel, re: (PS.Pattern, string) -> Option<string>)
    ensures var r := Assess(policy, scanner, request, analyze, re);
      r.Ok? <==> PS.RequestFindings(scanner, request, re).Ok?
    ensures var r := Assess(policy, scanner, request, analyze, re);
      r.Ok? ==> r.value.request == request && r.value.risk == analyze(request) &&
                r.value.findings == PS.RequestFindings(scanner, request, re).value &&
                r.value.result == Outcome(policy, EvalInput(request.actionType, request.target, analyze(request),
                                                            request.context))
  {
  }

  /** Each action's assessment, taken on its own. */
  function AssessEach(policy: Config, scanner: PS.Scanner, actions: seq<ActionRequest>,
                      analyze: ActionRequest -> RiskLevel, re: (PS.Pattern, string) -> Option<string>)
    : seq<Result<Assessment, PS.ScanError>>
  {
    seq(|actions|, i requires 0 <= i < |actions| => Assess(policy, scanner, actions[i], analyze, re))
  }

  /** All the values in order, or the first error: the loop stops at the first exception. */
  function Sequenced<T, E>(rs: seq<Result<T, E>>): Result<seq<T>, E> {
    if rs == [] then Ok([])
    else
      var prefix := Sequenced(rs[..|rs| - 1]);
      var last := rs[|rs| - 1];
      if prefix.Err? then prefix else if last.Err? then Err(last.error) else Ok(prefix.value + [last.value])
  }

  /** Sequencing succeeds exactly when every result is a value, and then keeps them all in order. */
  lemma {:induction false} SequencedInOrder<T, E>(rs: seq<Result<T, E>>)
    ensures Sequenced(rs).Ok? <==> forall i | 0 <= i < |rs| :: rs[i].Ok?
    ensures Sequenced(rs).Ok? ==> |Sequenced(rs).value| == |rs| &&
                                  forall i | 0 <= i < |rs| :: rs[i] == Ok(Sequenced(rs).value[i])
  {
    if rs != [] {
      var n := |rs| - 1;
      SequencedInOrder(rs[..n]);
      assert forall i | 0 <= i < n :: rs[..n][i] == rs[i];
    }
  }

  /** The error reported is the first one. */
  lemma {:induction false} SequencedFirstError<T, E>(rs: seq<Result<T, E>>, i: nat)
    requires i < |rs| && rs[i].Err?
    requires forall j | 0 <= j < i :: rs[j].Ok?
    ensures Sequenced(rs) == Err(rs[i].error)
    decreases |rs| - i
  {
    SequencedInOrder(rs[..i]);
    assert forall j | 0 <= j < i :: rs[..i][j] == rs[j];
    SequencedStep(rs, i);
    SequencedErrorPersists(rs, i + 1);
  }

  lemma SequencedStep<T, E>(rs: seq<Result<T, E>>, i: nat)
    requires i < |rs|
    ensures Sequenced(rs[..i + 1]) ==
      var prefix := Sequenced(rs[..i]);
      if prefix.Err? then prefix else if rs[i].Err? then Err(rs[i].error) else Ok(prefix.value + [rs[i].value])
  {
    assert rs[..i + 1][..i] == rs[..i];
  }

  lemma {:induction false} SequencedErrorPersists<T, E>(rs: seq<Result<T, E>>, i: nat)
    requires i <= |rs|
    requires Sequenced(rs[..i]).Err?
    ensures Sequenced(rs) == Sequenced(rs[..i])
    decreases |rs| - i
  {
    if i == |rs| {
      assert rs[..i] == rs;
    } else {
      SequencedStep(rs, i);
      SequencedErrorPersists(rs, i + 1);
    }
  }

  /** `sorted({f.reason_id for f in scan.findings})`. */
  function ReasonIds(findings: seq<PS.Finding>): (ids: seq<string>)
    ensures StrictlySorted(ids)
    ensures forall x :: x in ids <==> exists i | 0 <= i < |findings| :: findings[i].reasonId == x
  {
    var all := seq(|findings|, i requires 0 <= i < |findings| => findings[i].reasonId);
    var ids := SortedSet(all);
    assert forall x :: x in ids <==> x in Elems(ids);
    assert forall x :: x in all <==> x in Elems(all);
    forall x | x in all ensures exists i | 0 <= i < |findings| :: findings[i].reasonId == x {
      var i :| 0 <= i < |all| && all[i] == x;
      assert findings[i].reasonId == x;
    }
    forall x, i | 0 <= i < |findings| && findings[i].reasonId == x ensures x in all {
      assert all[i] == x;
    }
    ids
  }

  function MatchedRuleId(result: EvaluationResult): Option<string> {
    if result.matched.Some? then Some(result.matched.value.id) else None
  }

  /** `policy:<rule id>`, or `policy:default` when no rule (or an empty id) decided. */
  function PolicyReason(result: EvaluationResult): string {
    if result.matched.Some? && result.matched.value.id != "" then "policy:" + result.matched.value.id
    else "policy:default"
  }

  function ScannerKeys(ids: seq<string>): seq<string> {
    seq(|ids|, i requires 0 <= i < |ids| => "scanner:" + ids[i])
  }

  /** The reasons one action adds to the counts: none when it is allowed. */
  function BlockingKeys(a: Assessment): seq<string> {
    if a.result.decision == Allow then []
    else [PolicyReason(a.result)] + ScannerKeys(ReasonIds(a.findings))
  }

  /** The blocking reasons of all actions, in order. */
  function AllKeys(assessed: seq<Assessment>): seq<string> {
    if assessed == [] then []
    else AllKeys(assessed[..|assessed| - 1]) + BlockingKeys(assessed[|assessed| - 1])
  }

  // ---------------------------------------------------------------------------
  // The report
  // ---------------------------------------------------------------------------

  /** `CIActionReport`. */
  datatype ActionReport = ActionReport(
    index: nat,
    actionType: string,
    target: string,
    riskLevel: string,
    policyDecision: string,
    policyMatchedRuleId: Option<string>,
    scannerMaxSeverity: string,
    scannerReasonIds: seq<string>)

  /** `CIPolicyReport`. */
  datatype Report = Report(
    schemaVersion: string,
    policyVersion: string,
    totals: Totals,
    topBlockingReasons: seq<ReasonCount>,
    actions: seq<ActionReport>)

  function Row(index: nat, a: Assessment): ActionReport {
    ActionReport(index, ActionTypeValue(a.request.actionType), a.request.target, RiskValue(a.risk),
                 DecisionValue(a.result.decision), MatchedRuleId(a.result),
                 PS.SeverityValue(PS.MaxSeverity(a.findings)), ReasonIds(a.findings))
  }

  function Rows(assessed: seq<Assessment>): seq<ActionReport> {
    seq(|assessed|, i requires 0 <= i < |assessed| => Row(i, assessed[i]))
  }

  function Decisions(assessed: seq<Assessment>): seq<Decision> {
    seq(|assessed|, i requires 0 <= i < |assessed| => assessed[i].result.decision)
  }

  function ReportOf(policyVersion: string, assessed: seq<Assessment>): Report {
    Report(SchemaVersion, policyVersion, TotalsOf(Decisions(assessed)),
           TopReasons(Tallied([], AllKeys(assessed))), Rows(assessed))
  }

  /** What `generate_ci_report` returns: the report and the exit code, or the first scan failure. */
  function CiReport(policy: Config, scanner: PS.Scanner, actions: seq<ActionRequest>, analyze: ActionRequest -> RiskLevel,
                    re: (PS.Pattern, string) -> Option<string>): Result<(Report, int), PS.ScanError>
  {
    match Sequenced(AssessEach(policy, scanner, actions, analyze, re))
    case Err(e) => Err(e)
    case Ok(assessed) => Ok((ReportOf(policy.version, assessed), DecisionExitCode(Decisions(assessed))))
  }

  /** How the report's parts grow when one more action is assessed. */
  lemma DecisionsStep(assessed: seq<Assessment>, a: Assessment)
    ensures Decisions(assessed + [a]) == Decisions(assessed) + [a.result.decision]
  {
  }

  lemma TotalsStep(ds: seq<Decision>, d: Decision)
    ensures TotalsOf(ds + [d]) == Count(TotalsOf(ds), d)
  {
    assert (ds + [d])[..|ds|] == ds;
  }

  lemma RowsStep(assessed: seq<Assessment>, a: Assessment)
    ensures Rows(assessed + [a]) == Rows(assessed) + [Row(|assessed|, a)]
  {
  }

  lemma KeysStep(assessed: seq<Assessment>, a: Assessment)
    ensures Tallied([], AllKeys(assessed + [a])) == Tallied(Tallied([], AllKeys(assessed)), BlockingKeys(a))
  {
    assert (assessed + [a])[..|assessed|] == assessed;
    TalliedAppend([], AllKeys(assessed), BlockingKeys(a));
  }

  lemma TallyStep(cs: seq<ReasonCount>, keys: seq<string>, k: string)
    ensures Tallied(cs, keys + [k]) == Bump(Tallied(cs, keys), k)
  {
    assert (keys + [k])[..|keys|] == keys;
  }

  lemma ScannerKeysStep(ids: seq<string>, j: nat)
    requires j < |ids|
    ensures ScannerKeys(ids[..j + 1]) == ScannerKeys(ids[..j]) + ["scanner:" + ids[j]]
  {
  }

  /**
   * The counting step of `generate_ci_report`: for a non-allow decision, one
   * more for its policy reason and one more for each scanner reason.
   */
  method CountBlockingReasons(reasonCounts: seq<ReasonCount>, result: EvaluationResult, scannerReasonIds: seq<string>)
    returns (counts: seq<ReasonCount>)
    ensures result.decision == Allow ==> counts == reasonCounts
    ensures result.decision != Allow ==>
      counts == Tallied(reasonCounts, [PolicyReason(result)] + ScannerKeys(scannerReasonIds))
  {
    counts := reasonCounts;
    if result.decision != Allow {
      var policyReason := PolicyReason(result);
      counts := Bump(counts, policyReason);
      TallyStep(reasonCounts, [], policyReason);
      for j := 0 to |scannerReasonIds|
        invariant counts == Tallied(reasonCounts, [policyReason] + ScannerKeys(scannerReasonIds[..j]))
      {
        ScannerKeysStep(scannerReasonIds, j);
        assert [policyReason] + ScannerKeys(scannerReasonIds[..j + 1]) ==
               [policyReason] + ScannerKeys(scannerReasonIds[..j]) + ["scanner:" + scannerReasonIds[j]];
        TallyStep(reasonCounts, [policyReason] + ScannerKeys(scannerReasonIds[..j]), "scanner:" + scannerReasonIds[j]);
        counts := Bump(counts, "scanner:" + scannerReasonIds[j]);
      }
      assert scannerReasonIds[..|scannerReasonIds|] == scannerReasonIds;
    }
  }

  /** The analysis, the prompt scan and the policy evaluation of one action. */
  method AssessAction(policy: Config, scanner: PS.Scanner, request: ActionRequest, analyze: ActionRequest -> RiskLevel,
                      re: (PS.Pattern, string) -> Option<string>)
    returns (r: Result<Assessment, PS.ScanError>)
    ensures r == Assess(policy, scanner, request, analyze, re)
  {
    var risk := analyze(request);
    var scan := PS.ScanActionRequest(scanner, request, re);
    if scan.Err? {
      return Err(scan.error);
    }
    var evaluated := Evaluate(policy, FromRequest(request), Some(risk));
    r := Ok(Assessment(request, risk, evaluated.value, scan.value));
  }

  /**
   * `generate_ci_report`: one pass over the actions that analyses, scans and
   * evaluates each, appends its decision and report row, bumps its decision
   * total and, for a non-allow decision, the counts of its policy reason and
   * of each distinct scanner reason; then ranks the reasons.
   */
  method GenerateCiReport(actions: seq<ActionRequest>, policy: Config, scanner: PS.Scanner,
                          analyze: ActionRequest -> RiskLevel, re: (PS.Pattern, string) -> Option<string>)
    returns (r: Result<(Report, int), PS.ScanError>)
    ensures r == CiReport(policy, scanner, actions, analyze, re)
  {
    var actionReports: seq<ActionReport> := [];
    var decisions: seq<Decision> := [];
    var reasonCounts: seq<ReasonCount> := [];
    var totals := Totals(0, 0, 0);
    ghost var each := AssessEach(policy, scanner, actions, analyze, re);
    ghost var assessed: seq<Assessment> := [];

    var idx := 0;
    while idx < |actions|
      invariant idx <= |actions| && |assessed| == idx
      invariant Sequenced(each[..idx]) == Ok(assessed)
      invariant decisions == Decisions(assessed)
      invariant totals == TotalsOf(decisions)
      invariant reasonCounts == Tallied([], AllKeys(assessed))
      invariant actionReports == Rows(assessed)
    {
      var assessment := AssessAction(policy, scanner, actions[idx], analyze, re);
      SequencedStep(each, idx);
      if assessment.Err? {
        SequencedErrorPersists(each, idx + 1);
        return Err(assessment.error);
      }
      var a := assessment.value;
      var result := a.result;
      DecisionsStep(assessed, a);
      TotalsStep(decisions, result.decision);
      RowsStep(assessed, a);
      KeysStep(assessed, a);

      decisions := decisions + [result.decision];
      totals := Count(totals, result.decision);

      var scannerReasonIds := ReasonIds(a.findings);
      reasonCounts := CountBlockingReasons(reasonCounts, result, scannerReasonIds);

      actionReports := actionReports + [
        ActionReport(idx, ActionTypeValue(a.request.actionType), a.request.target, RiskValue(a.risk),
                     DecisionValue(result.decision), MatchedRuleId(result),
                     PS.SeverityValue(PS.MaxSeverity(a.findings)), scannerReasonIds)];
      assessed := assessed + [a];
      idx := idx + 1;
    }
    assert each[..idx] == each;
    r := Ok((Report(SchemaVersion, policy.version, totals, TopReasons(reasonCounts), actionReports),
             DecisionExitCode(decisions)));
  }

  // ---------------------------------------------------------------------------
  // What the report says
  // ---------------------------------------------------------------------------

  function ReasonsOf(cs: seq<ReasonCount>): seq<string> {
    seq(|cs|, i requires 0 <= i < |cs| => cs[i].reason)
  }

  /**
   * The ranked reasons: at most ten, each counted as often as it occurs among
   * the blocking keys, in order of count descending then reason ascending.
   */
  lemma TopReasonsCounted(keys: seq<string>)
    ensures var top := TopReasons(Tallied([], keys));
      |top| <= TopReasonLimit &&
      (forall i | 0 <= i < |top| :: top[i].reason in keys && top[i].count == multiset(keys)[top[i].reason]) &&
      (forall i, j | 0 <= i < j < |top| ::
         top[i].count > top[j].count || (top[i].count == top[j].count && !StrLess(top[j].reason, top[i].reason)))
  {
    var cs := Tallied([], keys);
    TalliedCounts([], keys);
    var top := TopReasons(cs);
    forall i | 0 <= i < |top| ensures top[i].reason in keys && top[i].count == multiset(keys)[top[i].reason] {
      assert top[i] in multiset(top);
      var p :| 0 <= p < |cs| && cs[p] == top[i];
      EntryCount(cs, p);
      assert CountOf([], cs[p].reason) == 0;
      assert cs[p].reason in Reasons(cs);
      assert cs[p].reason in Elems(keys);
    }
  }

  /** No reason left out of the ranking ranks before one that was kept, and then ten were kept. */
  lemma {:induction false} TopReasonsKeepTheBest(keys: seq<string>, k: string)
    requires k in keys
    requires k !in ReasonsOf(TopReasons(Tallied([], keys)))
    ensures var top := TopReasons(Tallied([], keys));
      |top| == TopReasonLimit && forall i | 0 <= i < |top| :: RankBefore(top[i], ReasonCount(k, multiset(keys)[k]))
  {
    var cs := Tallied([], keys);
    TalliedCounts([], keys);
    assert k in Elems(keys);
    assert k in Reasons(cs);
    var p :| 0 <= p < |cs| && cs[p].reason == k;
    EntryCount(cs, p);
    assert CountOf([], k) == 0;
    LeftOutRanksLower(cs, cs[p]);
  }

  lemma LeftOutRanksLower(cs: seq<ReasonCount>, e: ReasonCount)
    requires e in cs
    requires e.reason !in ReasonsOf(TopReasons(cs))
    ensures |TopReasons(cs)| == TopReasonLimit
    ensures forall i | 0 <= i < |TopReasons(cs)| :: RankBefore(TopReasons(cs)[i], e)
  {
    RankBeforeIsStrictOrder();
    var sorted := SortBy(cs, RankBefore);
    var top := TopReasons(cs);
    assert top == Take(sorted, TopReasonLimit);
    assert e in multiset(cs);
    var q :| 0 <= q < |sorted| && sorted[q] == e;
    forall j | 0 <= j < |top| ensures top[j].reason != e.reason {
      assert ReasonsOf(top)[j] == top[j].reason;
    }
    assert forall j | 0 <= j < |top| :: top[j] == sorted[j];
    assert q >= |top|;
    forall i | 0 <= i < |top| ensures RankBefore(top[i], e) {
      RankedAbove(sorted, i, q);
    }
  }

  /** In a ranked list, an entry is strictly before any later entry with another reason. */
  lemma RankedAbove(sorted: seq<ReasonCount>, i: nat, q: nat)
    requires SortedBy(sorted, RankBefore)
    requires i < q < |sorted|
    requires sorted[i].reason != sorted[q].reason
    ensures RankBefore(sorted[i], sorted[q])
  {
    assert !RankBefore(sorted[q], sorted[i]);
    StrLessTotal(sorted[i].reason, sorted[q].reason);
  }

  /** The entries of a sequence with no repeats each occur once. */
  lemma {:induction false} OccursOnce<T>(s: seq<T>, v: T)
    requires forall i, j | 0 <= i < j < |s| :: s[i] != s[j]
    ensures multiset(s)[v] == if v in s then 1 else 0
  {
    if s != [] {
      assert s == [s[0]] + s[1..];
      OccursOnce(s[1..], v);
      if v == s[0] {
        assert v !in s[1..] by {
          forall i | 0 <= i < |s[1..]| ensures s[1..][i] != v { assert s[1..][i] == s[i + 1]; }
        }
      }
    }
  }

  /** `scanner:x` is one of the scanner keys exactly when `x` is one of the ids. */
  lemma ScannerKeyOf(ids: seq<string>, x: string)
    ensures "scanner:" + x in ScannerKeys(ids) <==> x in ids
  {
    if "scanner:" + x in ScannerKeys(ids) {
      var i :| 0 <= i < |ids| && ScannerKeys(ids)[i] == "scanner:" + x;
      assert ids[i] == ("scanner:" + ids[i])[8..];
    }
    if x in ids {
      var i :| 0 <= i < |ids| && ids[i] == x;
      assert ScannerKeys(ids)[i] == "scanner:" + x;
    }
  }

  lemma ScannerKeysDistinct(ids: seq<string>)
    requires StrictlySorted(ids)
    ensures forall i, j | 0 <= i < j < |ScannerKeys(ids)| :: ScannerKeys(ids)[i] != ScannerKeys(ids)[j]
  {
    StrictlySortedDistinct(ids);
    forall i, j | 0 <= i < j < |ids| ensures ScannerKeys(ids)[i] != ScannerKeys(ids)[j] {
      assert ids[i] == ScannerKeys(ids)[i][8..];
      assert ids[j] == ScannerKeys(ids)[j][8..];
    }
  }

  /** Whether one of the action's findings carries reason `x`. */
  predicate HasReason(a: Assessment, x: string) {
    exists i | 0 <= i < |a.findings| :: a.findings[i].reasonId == x
  }

  /** The number of non-allowed actions with a finding of reason `x`. */
  function ScannerBlocked(assessed: seq<Assessment>, x: string): nat {
    if assessed == [] then 0
    else
      var a := assessed[|assessed| - 1];
      ScannerBlocked(assessed[..|assessed| - 1], x) + if a.result.decision != Allow && HasReason(a, x) then 1 else 0
  }

  /** The number of non-allowed actions whose policy reason is `k`. */
  function PolicyBlocked(assessed: seq<Assessment>, k: string): nat {
    if assessed == [] then 0
    else
      var a := assessed[|assessed| - 1];
      PolicyBlocked(assessed[..|assessed| - 1], k) + if a.result.decision != Allow && PolicyReason(a.result) == k then 1 else 0
  }

  /**
   * One action contributes at most one `scanner:x` however many of its
   * findings carry `x`, and exactly one for its policy reason, and only
   * when it is not allowed.
   */
  lemma BlockingKeysOfOne(a: Assessment, x: string, k: string)
    requires |k| >= 7 && k[..7] == "policy:"
    ensures multiset(BlockingKeys(a))["scanner:" + x] == if a.result.decision != Allow && HasReason(a, x) then 1 else 0
    ensures multiset(BlockingKeys(a))[k] == if a.result.decision != Allow && PolicyReason(a.result) == k then 1 else 0
  {
    if a.result.decision != Allow {
      var ids := ReasonIds(a.findings);
      var sk := ScannerKeys(ids);
      assert BlockingKeys(a) == [PolicyReason(a.result)] + sk;
      assert PolicyReason(a.result)[0] == 'p';
      assert ("scanner:" + x)[0] == 's';
      ScannerKeysDistinct(ids);
      OccursOnce(sk, "scanner:" + x);
      ScannerKeyOf(ids, x);
      OccursOnce(sk, k);
      assert k !in sk by {
        forall i | 0 <= i < |sk| ensures sk[i] != k { assert sk[i][0] == 's'; }
      }
    }
  }

  /** The counts in the report: per scanner reason and per policy reason, over all non-allowed actions. */
  lemma {:induction false} BlockingReasonsCounted(assessed: seq<Assessment>, x: string, k: string)
    requires |k| >= 7 && k[..7] == "policy:"
    ensures CountOf(Tallied([], AllKeys(assessed)), "scanner:" + x) == ScannerBlocked(assessed, x)
    ensures CountOf(Tallied([], AllKeys(assessed)), k) == PolicyBlocked(assessed, k)
  {
    var keys := AllKeys(assessed);
    TalliedCounts([], keys);
    assert CountOf([], "scanner:" + x) == 0 && CountOf([], k) == 0;
    assert CountOf(Tallied([], keys), "scanner:" + x) == multiset(keys)["scanner:" + x];
    assert CountOf(Tallied([], keys), k) == multiset(keys)[k];
    KeysCounted(assessed, x, k);
  }

  lemma {:induction false} KeysCounted(assessed: seq<Assessment>, x: string, k: string)
    requires |k| >= 7 && k[..7] == "policy:"
    ensures multiset(AllKeys(assessed))["scanner:" + x] == ScannerBlocked(assessed, x)
    ensures multiset(AllKeys(assessed))[k] == PolicyBlocked(assessed, k)
  {
    if assessed != [] {
      var n := |assessed| - 1;
      KeysCounted(assessed[..n], x, k);
      BlockingKeysOfOne(assessed[n], x, k);
    }
  }

  /**
   * A successful report has one row per action, in order and indexed by
   * position, totals that add up to the number of actions, and an exit code
   * that can be read off the totals.
   */
  lemma ReportShape(policy: Config, scanner: PS.Scanner, actions: seq<ActionRequest>,
                    analyze: ActionRequest -> RiskLevel, re: (PS.Pattern, string) -> Option<string>)
    ensures var r := CiReport(policy, scanner, actions, analyze, re);
      r.Ok? ==>
        var (report, code) := r.value;
        report.schemaVersion == SchemaVersion && report.policyVersion == policy.version &&
        |report.actions| == |actions| &&
        (forall i | 0 <= i < |actions| ::
           report.actions[i].index == i && report.actions[i].target == actions[i].target &&
           report.actions[i].actionType == ActionTypeValue(actions[i].actionType) &&
           StrictlySorted(report.actions[i].scannerReasonIds)) &&
        report.totals.allow + report.totals.requireApproval + report.totals.deny == |actions| &&
        code == if report.totals.deny > 0 then 3 else if report.totals.requireApproval > 0 then 2 else 0
  {
    var each := AssessEach(policy, scanner, actions, analyze, re);
    AssessedInOrder(policy, scanner, actions, analyze, re);
    if Sequenced(each).Ok? {
      var assessed := Sequenced(each).value;
      ExitCodeFromTotals(Decisions(assessed));
      ReportRows(policy.version, assessed);
    }
  }

  /** The assessments, when all succeed, are those of the actions in order. */
  lemma AssessedInOrder(policy: Config, scanner: PS.Scanner, actions: seq<ActionRequest>,
                        analyze: ActionRequest -> RiskLevel, re: (PS.Pattern, string) -> Option<string>)
    ensures var r := Sequenced(AssessEach(policy, scanner, actions, analyze, re));
      r.Ok? ==> |r.value| == |actions| && forall i | 0 <= i < |actions| :: r.value[i].request == actions[i]
  {
    var each := AssessEach(policy, scanner, actions, analyze, re);
    SequencedInOrder(each);
    if Sequenced(each).Ok? {
      var assessed := Sequenced(each).value;
      forall i | 0 <= i < |actions| ensures assessed[i].request == actions[i] {
        assert each[i] == Assess(policy, scanner, actions[i], analyze, re);
        AssessKeepsRequest(policy, scanner, actions[i], analyze, re);
      }
    }
  }

  lemma ReportRows(version: string, assessed: seq<Assessment>)
    ensures var report := ReportOf(version, assessed);
      |report.actions| == |assessed| &&
      (forall i | 0 <= i < |assessed| ::
         report.actions[i].index == i && report.actions[i].target == assessed[i].request.target &&
         report.actions[i].actionType == ActionTypeValue(assessed[i].request.actionType) &&
         StrictlySorted(report.actions[i].scannerReasonIds)) &&
      report.totals.allow + report.totals.requireApproval + report.totals.deny == |assessed|
  {
  }

  /** A scan failure on any action fails the whole report with the first such failure. */
  lemma ReportFailsAtFirstScanError(policy: Config, scanner: PS.Scanner, actions: seq<ActionRequest>,
                                    analyze: ActionRequest -> RiskLevel, re: (PS.Pattern, string) -> Option<string>,
                                    i: nat)
    requires i < |actions|
    requires PS.RequestFindings(scanner, actions[i], re).Err?
    requires forall j | 0 <= j < i :: PS.RequestFindings(scanner, actions[j], re).Ok?
    ensures CiReport(policy, scanner, actions, analyze, re) == Err(PS.RequestFindings(scanner, actions[i], re).error)
  {
    var each := AssessEach(policy, scanner, actions, analyze, re);
    SequencedFirstError(each, i);
  }

  // ---------------------------------------------------------------------------
  // Loading the actions file
  // ---------------------------------------------------------------------------

  const ShapeMessage := "Actions file must be a JSON list or an object with an 'actions' list"

  function NotAnObjectMessage(index: nat): string {
    "Action at index " + NatToString(index) + " must be an object"
  }

  /** The action list a decoded actions file holds: the file itself, or its `actions` entry. */
  function ActionList(payload: Json): (r: Result<seq<Json>, string>)
    ensures r.Ok? <==> payload.JArray? ||
                       (payload.JObject? && Get(payload.entries, "actions").Some? &&
                        Get(payload.entries, "actions").value.JArray?)
    ensures r.Ok? ==> r.value == if payload.JArray? then payload.items else Get(payload.entries, "actions").value.items
    ensures r.Err? ==> r.error == ShapeMessage
  {
    match payload
    case JArray(items) => Ok(items)
    case JObject(entries) =>
      (match Get(entries, "actions")
       case Some(JArray(items)) => Ok(items)
       case _ => Err(ShapeMessage))
    case _ => Err(ShapeMessage)
  }

  /** One entry of the list: it must be an object, and `validate` must accept it. */
  function ValidateItem(index: nat, item: Json, validate: seq<(string, Json)> -> Result<ActionRequest, string>)
    : Result<ActionRequest, string>
  {
    if !item.JObject? then Err(NotAnObjectMessage(index)) else validate(item.entries)
  }

  function ValidateEach(items: seq<Json>, validate: seq<(string, Json)> -> Result<ActionRequest, string>)
    : seq<Result<ActionRequest, string>>
  {
    seq(|items|, i requires 0 <= i < |items| => ValidateItem(i, items[i], validate))
  }

  /** What `_load_actions_from_json` returns for a decoded file, or the message it raises. */
  function LoadActions(payload: Json, validate: seq<(string, Json)> -> Result<ActionRequest, string>)
    : Result<seq<ActionRequest>, string>
  {
    match ActionList(payload)
    case Err(e) => Err(e)
    case Ok(items) => Sequenced(ValidateEach(items, validate))
  }

  /**
   * `_load_actions_from_json` after the file is read and decoded: pick the
   * list, then validate its entries in order, stopping at the first that is
   * not an object or does not validate.
   */
  method LoadActionsFromJson(payload: Json, validate: seq<(string, Json)> -> Result<ActionRequest, string>)
    returns (r: Result<seq<ActionRequest>, string>)
    ensures r == LoadActions(payload, validate)
  {
    var actionList: seq<Json>;
    if payload.JArray? {
      actionList := payload.items;
    } else if payload.JObject? && Get(payload.entries, "actions").Some? && Get(payload.entries, "actions").value.JArray? {
      actionList := Get(payload.entries, "actions").value.items;
    } else {
      return Err(ShapeMessage);
    }

    ghost var each := ValidateEach(actionList, validate);
    var actions: seq<ActionRequest> := [];
    for idx := 0 to |actionList|
      invariant Sequenced(each[..idx]) == Ok(actions)
    {
      var item := actionList[idx];
      SequencedStep(each, idx);
      if !item.JObject? {
        SequencedErrorPersists(each, idx + 1);
        return Err(NotAnObjectMessage(idx));
      }
      var validated := validate(item.entries);
      if validated.Err? {
        SequencedErrorPersists(each, idx + 1);
        return Err(validated.error);
      }
      actions := actions + [validated.value];
    }
    assert each[..|actionList|] == each;
    r := Ok(actions);
  }

  /**
   * Loading succeeds exactly when the file holds an action list whose every
   * entry is an object that validates, and then yields the validated
   * actions in order; otherwise the first offending entry is reported.
   */
  lemma LoadedActions(payload: Json, validate: seq<(string, Json)> -> Result<ActionRequest, string>)
    ensures var r := LoadActions(payload, validate);
      r.Ok? <==> ActionList(payload).Ok? &&
                 forall i | 0 <= i < |ActionList(payload).value| ::
                   ActionList(payload).value[i].JObject? && validate(ActionList(payload).value[i].entries).Ok?
    ensures var r := LoadActions(payload, validate);
      r.Ok? ==> |r.value| == |ActionList(payload).value| &&
                forall i | 0 <= i < |r.value| :: validate(ActionList(payload).value[i].entries) == Ok(r.value[i])
  {
    if ActionList(payload).Ok? {
      var items := ActionList(payload).value;
      var each := ValidateEach(items, validate);
      SequencedInOrder(each);
      assert forall i | 0 <= i < |items| :: each[i] == ValidateItem(i, items[i], validate);
    }
  }

  /** The first entry that is not an object is the one reported. */
  lemma FirstNonObjectReported(payload: Json, validate: seq<(string, Json)> -> Result<ActionRequest, string>, i: nat)
    requires ActionList(payload).Ok?
    requires i < |ActionList(payload).value| && !ActionList(payload).value[i].JObject?
    requires forall j | 0 <= j < i :: ActionList(payload).value[j].JObject? &&
                                      validate(ActionList(payload).value[j].entries).Ok?
    ensures LoadActions(payload, validate) == Err(NotAnObjectMessage(i))
  {
    var items := ActionList(payload).value;
    var each := ValidateEach(items, validate);
    assert forall j | 0 <= j < |items| :: each[j] == ValidateItem(j, items[j], validate);
    SequencedFirstError(each, i);
  }

  /** The first object that does not validate is the one reported, with the validation's own message. */
  lemma FirstInvalidReported(payload: Json, validate: seq<(string, Json)> -> Result<ActionRequest, string>, i: nat)
    requires ActionList(payload).Ok?
    requires i < |ActionList(payload).value| && ActionList(payload).value[i].JObject?
    requires validate(ActionList(payload).value[i].entries).Err?
    requires forall j | 0 <= j < i :: ActionList(payload).value[j].JObject? &&
                                      validate(ActionList(payload).value[j].entries).Ok?
    ensures LoadActions(payload, validate) == Err(validate(ActionList(payload).value[i].entries).error)
  {
    var items := ActionList(payload).value;
    var each := ValidateEach(items, validate);
    assert forall j | 0 <= j < |items| :: each[j] == ValidateItem(j, items[j], validate);
    SequencedFirstError(each, i);
  }

  // ---------------------------------------------------------------------------
  // The command
  // ---------------------------------------------------------------------------

  /** What `main` writes: the report, or the error payload. */
  datatype CiOutput = Written(report: Report) | Failed(schemaVersion: string, error: string)

  /** `str(exc)` of a finding that fails validation. */
  function ScanErrorMessage(e: PS.ScanError): string {
    "Invalid scan finding " + e.reasonId + " in field " + e.field
  }

  /**
   * What `main` prints and returns, given the decoded actions file (or the
   * message of the read or decode failure) and the chosen preset: any failure
   * becomes the error payload and exit code 4.
   */
  function CiMain(source: Result<Json, string>, presetId: string,
                  validate: seq<(string, Json)> -> Result<ActionRequest, string>,
                  analyze: ActionRequest -> RiskLevel, re: (PS.Pattern, string) -> Option<string>)
    : (CiOutput, int)
  {
    var loaded := if source.Err? then Err(source.error) else LoadActions(source.value, validate);
    if loaded.Err? then (Failed(SchemaVersion, loaded.error), 4)
    else
      var policy := Presets.LoadPolicyPreset(presetId);
      if policy.Err? then (Failed(SchemaVersion, policy.error), 4)
      else
        var result := CiReport(policy.value, PS.DefaultScanner(), loaded.value, analyze, re);
        if result.Err? then (Failed(SchemaVersion, ScanErrorMessage(result.error)), 4)
        else (Written(result.value.0), result.value.1)
  }

  /** `main`, after its arguments are parsed. */
  method RunCi(source: Result<Json, string>, presetId: string,
               validate: seq<(string, Json)> -> Result<ActionRequest, string>,
               analyze: ActionRequest -> RiskLevel, re: (PS.Pattern, string) -> Option<string>)
    returns (output: CiOutput, code: int)
    ensures (output, code) == CiMain(source, presetId, validate, analyze, re)
  {
    if source.Err? {
      return Failed(SchemaVersion, source.error), 4;
    }
    var actions := LoadActionsFromJson(source.value, validate);
    if actions.Err? {
      return Failed(SchemaVersion, actions.error), 4;
    }
    var policy := Presets.LoadPolicyPreset(presetId);
    if policy.Err? {
      return Failed(SchemaVersion, policy.error), 4;
    }
    var result := GenerateCiReport(actions.value, policy.value, PS.DefaultScanner(), analyze, re);
    if result.Err? {
      return Failed(SchemaVersion, ScanErrorMessage(result.error)), 4;
    }
    var (report, exitCode) := result.value;
    output, code := Written(report), exitCode;
  }

  /**
   * The exit codes are 0, 2, 3 and 4; 4 exactly when the error payload is
   * written, which carries the schema version; otherwise the code is the one
   * the report's totals call for.
   */
  lemma CiExitCodes(source: Result<Json, string>, presetId: string,
                    validate: seq<(string, Json)> -> Result<ActionRequest, string>,
                    analyze: ActionRequest -> RiskLevel, re: (PS.Pattern, string) -> Option<string>)
    ensures var (output, code) := CiMain(source, presetId, validate, analyze, re);
      code in {0, 2, 3, 4} && (code == 4 <==> output.Failed?) &&
      (output.Failed? ==> output.schemaVersion == SchemaVersion) &&
      (output.Written? ==>
         code == if output.report.totals.deny > 0 then 3 else if output.report.totals.requireApproval > 0 then 2 else 0)
  {
    if source.Ok? && LoadActions(source.value, validate).Ok? && Presets.LoadPolicyPreset(presetId).Ok? {
      ReportShape(Presets.LoadPolicyPreset(presetId).value, PS.DefaultScanner(),
                  LoadActions(source.value, validate).value, analyze, re);
    }
  }

  /** Every preset the command line offers loads. */
  lemma OfferedPresetsLoad(presetId: string)
    requires presetId in Presets.PresetIds
    ensures Presets.LoadPolicyPreset(presetId).Ok?
  {
    Presets.TablesAgree();
  }
}
