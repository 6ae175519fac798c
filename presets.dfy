/**
 * The bundled policy presets (startup, fintech, games): their metadata, their
 * policies, and the lookups that reject an unknown preset id. The presets are
 * validated through the same loader as any other policy, and serve as
 * concrete inputs for the evaluator.
 */
module Presets {
  import opened Wrappers
  import opened Text
  import opened Actions
  import opened Policy
  import Glob

  // ---------------------------------------------------------------------------
  // Metadata
  // ---------------------------------------------------------------------------

  datatype PresetMetadata = PresetMetadata(id: string, name: string, description: string, tags: seq<string>)

  /** The schema's constraints: id, name and description are non-empty. */
  predicate ValidMetadata(m: PresetMetadata) {
    m.id != "" && m.name != "" && m.description != ""
  }

  const StartupMetadata := PresetMetadata("startup", "Startup",
    "Balanced defaults for fast-moving teams with basic safety guardrails.", ["balanced", "general"])
  const FintechMetadata := PresetMetadata("fintech", "Fintech",
    "Stricter defaults for regulated environments (secrets/prod changes).", ["strict", "regulated"])
  const GamesMetadata := PresetMetadata("games", "Games",
    "Iterative defaults tuned for content/assets heavy workflows.", ["iterative", "content"])

  /** The metadata table, in its declaration order. */
  const Catalog: seq<PresetMetadata> := [StartupMetadata, FintechMetadata, GamesMetadata]

  /** The preset ids, in declaration order. */
  const PresetIds: seq<string> := ["startup", "fintech", "games"]

  // ---------------------------------------------------------------------------
  // Policies
  // ---------------------------------------------------------------------------

  const DenySecretsId := "deny-secrets-and-keys"

  const SecretFragments: seq<string> := [".env", ".ssh", "id_rsa", "credentials", "secrets", "password", ".pem"]
  const FintechSecretFragments: seq<string> := SecretFragments + ["api_key", "secret_key"]

  /** Priority 0 deny on any target naming a secret or key file. */
  function DenySecrets(fragments: seq<string>): Rule {
    Rule(DenySecretsId, Deny, 0, true, {}, [], fragments, None, None)
  }

  const StartupDocsTests := Rule("allow-docs-and-tests-low-medium", Allow, 50, true,
    {FileWrite, FileCreate}, ["docs/*", "tests/*"], [], None, Some(Medium))
  const StartupShell := Rule("require-approval-shell", RequireApproval, 75, true,
    {ShellCommand}, [], [], None, None)

  const FintechCritical := Rule("deny-critical-risk", Deny, 5, true, {}, [], [], Some(Critical), None)
  const FintechDb := Rule("require-approval-db-execute", RequireApproval, 10, true,
    {DbExecute}, [], [], None, None)
  const FintechDocs := Rule("allow-docs-low", Allow, 50, true,
    {FileWrite, FileCreate}, ["docs/*"], [], None, Some(Low))

  const GamesAssetsDocs := Rule("allow-assets-and-docs-low-medium", Allow, 50, true,
    {FileWrite, FileCreate}, ["assets/*", "docs/*"], [], None, Some(Medium))
  const GamesTests := Rule("allow-tests-low-medium", Allow, 55, true,
    {FileWrite, FileCreate}, ["tests/*"], [], None, Some(Medium))

  const Startup := Config("preset-startup-1", RequireApproval,
    [DenySecrets(SecretFragments), StartupDocsTests, StartupShell])
  const Fintech := Config("preset-fintech-1", RequireApproval,
    [DenySecrets(FintechSecretFragments), FintechCritical, FintechDb, FintechDocs])
  const Games := Config("preset-games-1", RequireApproval,
    [DenySecrets(SecretFragments), GamesAssetsDocs, GamesTests])

  /** The policy table. */
  const PresetPolicies: map<string, Config> := map["startup" := Startup, "fintech" := Fintech, "games" := Games]

  /** The two tables are keyed by the same ids, and each metadata entry sits under its own id. */
  lemma TablesAgree()
    ensures PresetPolicies.Keys == Elems(PresetIds)
    ensures |Catalog| == |PresetIds|
    ensures forall i | 0 <= i < |Catalog| :: Catalog[i].id == PresetIds[i] && ValidMetadata(Catalog[i])
  {
  }

  // ---------------------------------------------------------------------------
  // Lookups
  // ---------------------------------------------------------------------------

  const UnknownPrefix := "Unknown preset id '"

  /** `Unknown preset id '<id>'. Available: <sorted ids joined by ", ">`. */
  function UnknownPresetMessage(presetId: string): (msg: string)
    ensures |msg| >= |UnknownPrefix| + |presetId|
    ensures msg[..|UnknownPrefix|] == UnknownPrefix
    ensures msg[|UnknownPrefix|..|UnknownPrefix| + |presetId|] == presetId
  {
    UnknownPrefix + presetId + "'. Available: " + Join(", ", SortedSet(PresetIds))
  }

  /** The first catalog entry with the given id. */
  function FindMetadata(entries: seq<PresetMetadata>, presetId: string): (r: Option<PresetMetadata>)
    ensures r.Some? <==> exists i | 0 <= i < |entries| :: entries[i].id == presetId
    ensures r.Some? ==> r.value in entries && r.value.id == presetId
  {
    if entries == [] then None
    else if entries[0].id == presetId then Some(entries[0])
    else
      var r := FindMetadata(entries[1..], presetId);
      assert forall i | 1 <= i < |entries| :: entries[1..][i - 1] == entries[i];
      r
  }

  /** `get_policy_preset_metadata`: the entry for a known id, otherwise the unknown-id error. */
  function GetPresetMetadata(presetId: string): (r: Result<PresetMetadata, string>)
    ensures r.Ok? <==> presetId in PresetIds
    ensures r.Ok? ==> r.value.id == presetId && r.value in Catalog && ValidMetadata(r.value)
    ensures r.Err? ==> |r.error| >= |UnknownPrefix| && r.error[..|UnknownPrefix|] == UnknownPrefix
  {
    TablesAgree();
    match FindMetadata(Catalog, presetId)
    case Some(m) => Ok(m)
    case None => Err(UnknownPresetMessage(presetId))
  }

  /** Every bundled policy passes load-time validation and defaults to require_approval. */
  lemma PresetsAreValid(presetId: string)
    requires presetId in PresetPolicies
    ensures ValidConfig(PresetPolicies[presetId])
    ensures PresetPolicies[presetId].defaultDecision == RequireApproval
    ensures PresetPolicies[presetId].rules != []
  {
  }

  /** `load_policy_preset`: the validated policy for a known id, otherwise the unknown-id error. */
  function LoadPolicyPreset(presetId: string): (r: Result<Config, string>)
    ensures r.Ok? <==> presetId in PresetPolicies
    ensures r.Ok? ==> r.value == PresetPolicies[presetId] && ValidConfig(r.value)
    ensures r.Ok? ==> r.value.defaultDecision == RequireApproval
    ensures r.Err? ==> |r.error| >= |UnknownPrefix| && r.error[..|UnknownPrefix|] == UnknownPrefix
  {
    if presetId !in PresetPolicies then Err(UnknownPresetMessage(presetId))
    else
      PresetsAreValid(presetId);
      LoadPolicy(PresetPolicies[presetId])
  }

  // ---------------------------------------------------------------------------
  // Listing, sorted by id
  // ---------------------------------------------------------------------------

  /** The sort key of `list_policy_presets`: the preset id. */
  function IdBefore(a: PresetMetadata, b: PresetMetadata): bool {
    StrLess(a.id, b.id)
  }

  lemma IdBeforeIsStrictOrder()
    ensures StrictOrder(IdBefore)
  {
    forall a: PresetMetadata ensures !IdBefore(a, a) { StrLessIrreflexive(a.id); }
    forall a: PresetMetadata, b: PresetMetadata, c: PresetMetadata | IdBefore(a, b) && IdBefore(b, c)
      ensures IdBefore(a, c)
    {
      StrLessTransitive(a.id, b.id, c.id);
    }
  }

  /** `list_policy_presets`: the metadata entries, sorted by id. */
  function ListPolicyPresets(): (r: seq<PresetMetadata>)
    ensures forall i, j | 0 <= i < j < |r| :: !StrLess(r[j].id, r[i].id)
    ensures multiset(r) == multiset(Catalog)
  {
    SortedById(Catalog)
  }

  function SortedById(ms: seq<PresetMetadata>): (r: seq<PresetMetadata>)
    ensures forall i, j | 0 <= i < j < |r| :: !StrLess(r[j].id, r[i].id)
    ensures multiset(r) == multiset(ms)
  {
    IdBeforeIsStrictOrder();
    SortBy(ms, IdBefore)
  }

  // ---------------------------------------------------------------------------
  // Behaviour of the bundled policies
  // ---------------------------------------------------------------------------

  /** The target names one of the fragments, ignoring case. */
  predicate NamesFragment(target: string, fragments: seq<string>) {
    exists f | f in fragments :: ContainsIgnoringCase(target, f)
  }

  /** The secret rule comes first in every preset, with priority 0 and its fragment list. */
  function SecretFragmentsOf(presetId: string): seq<string>
    requires presetId in PresetPolicies
  {
    if presetId == "fintech" then FintechSecretFragments else SecretFragments
  }

  /**
   * In every preset a target naming a secret fragment is denied by
   * `deny-secrets-and-keys`, whatever the action type and risk: priority 0
   * is strictly below every other rule's priority.
   */
  lemma SecretsAreDenied(presetId: string, input: EvalInput)
    requires presetId in PresetPolicies
    requires NamesFragment(input.target, SecretFragmentsOf(presetId))
    ensures Outcome(PresetPolicies[presetId], input).decision == Deny
    ensures Outcome(PresetPolicies[presetId], input).matched == Some(MatchedRule(DenySecretsId, 0, 1))
  {
    var rules := PresetPolicies[presetId].rules;
    assert rules[0] == DenySecrets(SecretFragmentsOf(presetId));
    assert Matches(rules[0], input);
    assert DeclaredKinds(rules[0]) == {TargetContainsKind};
    LowestPriorityWins(rules, input, 0);
  }

  /** A target lacking the letters e, h, i and w (in either case) names no secret fragment. */
  lemma NoSecretWithoutLetters(t: string)
    requires AbsentIgnoringCase('e', t) && AbsentIgnoringCase('h', t)
    requires AbsentIgnoringCase('i', t) && AbsentIgnoringCase('w', t)
    ensures !NamesFragment(t, FintechSecretFragments)
    ensures !NamesFragment(t, SecretFragments)
  {
    LowerMissingChar(t, ".env", 'e');
    LowerMissingChar(t, ".ssh", 'h');
    LowerMissingChar(t, "id_rsa", 'i');
    LowerMissingChar(t, "credentials", 'e');
    LowerMissingChar(t, "secrets", 'e');
    LowerMissingChar(t, "password", 'w');
    LowerMissingChar(t, ".pem", 'e');
    LowerMissingChar(t, "api_key", 'i');
    LowerMissingChar(t, "secret_key", 'e');
  }

  /** A target `a/b` where `a` lacks h and `b` lacks s, and neither has c, i, m, v or w, names no secret fragment. */
  lemma NoSecretInTwoParts(a: string, b: string)
    requires AbsentIgnoringCase('h', a) && AbsentIgnoringCase('s', b)
    requires forall c | c in "cimvw" :: AbsentIgnoringCase(c, a + ['/'] + b)
    ensures !NamesFragment(a + ['/'] + b, FintechSecretFragments)
    ensures !NamesFragment(a + ['/'] + b, SecretFragments)
  {
    var t := a + ['/'] + b;
    assert 'c' in "cimvw" && 'i' in "cimvw" && 'm' in "cimvw" && 'v' in "cimvw" && 'w' in "cimvw";
    LowerMissingChar(t, ".env", 'v');
    LowerMissingAcross(a, '/', b, ".ssh", 'h', 's');
    LowerMissingChar(t, "id_rsa", 'i');
    LowerMissingChar(t, "credentials", 'c');
    LowerMissingChar(t, "secrets", 'c');
    LowerMissingChar(t, "password", 'w');
    LowerMissingChar(t, ".pem", 'm');
    LowerMissingChar(t, "api_key", 'i');
    LowerMissingChar(t, "secret_key", 'c');
  }

  /** Apart from `deny-secrets-and-keys`, startup has no deny rule: it denies exactly the targets naming a secret. */
  lemma StartupDeniesOnlySecrets(input: EvalInput)
    ensures Outcome(Startup, input).decision == Deny <==> NamesFragment(input.target, SecretFragments)
  {
    if NamesFragment(input.target, SecretFragments) {
      SecretsAreDenied("startup", input);
    } else {
      SelectionIsLeastKey(Startup.rules, input);
      assert !Matches(Startup.rules[0], input);
    }
  }

  /** Games has no deny rule other than the secrets rule either. */
  lemma GamesDeniesOnlySecrets(input: EvalInput)
    ensures Outcome(Games, input).decision == Deny <==> NamesFragment(input.target, SecretFragments)
  {
    if NamesFragment(input.target, SecretFragments) {
      SecretsAreDenied("games", input);
    } else {
      SelectionIsLeastKey(Games.rules, input);
      assert !Matches(Games.rules[0], input);
    }
  }

  /**
   * Fintech denies exactly the targets naming a secret and every critical-risk
   * action; a critical action naming no secret is denied by `deny-critical-risk`.
   */
  lemma FintechDenies(input: EvalInput)
    ensures Outcome(Fintech, input).decision == Deny <==>
      NamesFragment(input.target, FintechSecretFragments) || input.risk == Critical
    ensures input.risk == Critical && !NamesFragment(input.target, FintechSecretFragments) ==>
      Outcome(Fintech, input).matched.value.id == "deny-critical-risk"
  {
    var rules := Fintech.rules;
    if NamesFragment(input.target, FintechSecretFragments) {
      SecretsAreDenied("fintech", input);
    } else {
      assert !Matches(rules[0], input);
      if input.risk == Critical {
        assert Eligible(rules[1], input);
        LowestPriorityWins(rules, input, 1);
      } else {
        SelectionIsLeastKey(rules, input);
        assert !Eligible(rules[1], input);
      }
    }
  }

  /** Fintech allows only low-risk writes and creations under `docs/`. */
  lemma FintechAllowsOnlyLowRiskDocs(input: EvalInput)
    ensures Outcome(Fintech, input).decision == Allow ==>
      input.risk == Low && input.actionType in {FileWrite, FileCreate} && IsPrefix("docs/", input.target)
  {
    SelectionIsLeastKey(Fintech.rules, input);
    if Outcome(Fintech, input).decision == Allow {
      var w := Winner(Fintech.rules, input).value;
      assert w == 3;
      assert "docs/*" == "docs/" + "*";
      Glob.PrefixStarMatch(input.target, "docs/");
    }
  }

  /**
   * Games allows a low- or medium-risk write or creation under `assets/` that
   * names no secret, by `allow-assets-and-docs-low-medium`.
   */
  lemma GamesAllowsAssets(input: EvalInput)
    requires input.actionType in {FileWrite, FileCreate} && input.risk in {Low, Medium}
    requires IsPrefix("assets/", input.target) && !NamesFragment(input.target, SecretFragments)
    ensures Outcome(Games, input).decision == Allow
    ensures Outcome(Games, input).matched.value.id == "allow-assets-and-docs-low-medium"
  {
    var rules := Games.rules;
    assert "assets/*" == "assets/" + "*";
    Glob.PrefixStarMatch(input.target, "assets/");
    assert !Eligible(rules[0], input);
    assert Eligible(rules[1], input);
    LowestPriorityWins(rules, input, 1);
  }

  lemma AppSourceNamesNoSecret(t: string)
    requires t == "src/app.py"
    ensures !NamesFragment(t, FintechSecretFragments) && !NamesFragment(t, SecretFragments)
  {
    assert AbsentIgnoringCase('e', t) && AbsentIgnoringCase('h', t);
    assert AbsentIgnoringCase('i', t) && AbsentIgnoringCase('w', t);
    NoSecretWithoutLetters(t);
  }

  lemma HeroImageNamesNoSecret(t: string)
    requires t == "assets/hero.png"
    ensures !NamesFragment(t, FintechSecretFragments) && !NamesFragment(t, SecretFragments)
  {
    assert t == "assets" + ['/'] + "hero.png";
    assert AbsentIgnoringCase('h', "assets") && AbsentIgnoringCase('s', "hero.png");
    forall c | c in "cimvw" ensures AbsentIgnoringCase(c, t) {
    }
    NoSecretInTwoParts("assets", "hero.png");
  }

  /**
   * The scenario of a critical-risk write to `src/app.py`: fintech denies it
   * by `deny-critical-risk`, startup does not deny it.
   */
  lemma CriticalWriteScenario(t: string)
    requires t == "src/app.py"
    ensures var input := EvalInput(FileWrite, t, Critical, None);
      Outcome(Fintech, input).decision == Deny &&
      Outcome(Fintech, input).matched.value.id == "deny-critical-risk" &&
      Outcome(Startup, input).decision != Deny
  {
    var input := EvalInput(FileWrite, t, Critical, None);
    AppSourceNamesNoSecret(t);
    FintechDenies(input);
    StartupDeniesOnlySecrets(input);
  }

  /**
   * The scenario of a medium-risk write to `assets/hero.png`: games allows it
   * by its assets rule, fintech does not allow it.
   */
  lemma AssetWriteScenario(t: string)
    requires t == "assets/hero.png"
    ensures var input := EvalInput(FileWrite, t, Medium, None);
      Outcome(Games, input).decision == Allow &&
      Outcome(Games, input).matched.value.id == "allow-assets-and-docs-low-medium" &&
      Outcome(Fintech, input).decision != Allow
  {
    var input := EvalInput(FileWrite, t, Medium, None);
    HeroImageNamesNoSecret(t);
    IsPrefixIff("assets/", t);
    assert t[..7] == "assets/";
    GamesAllowsAssets(input);
    FintechAllowsOnlyLowRiskDocs(input);
  }
}
