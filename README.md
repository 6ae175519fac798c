# impact-preview governance core, in Dafny

This project is a Dafny model of the governance core of *impact-preview* (the
`agent_polis` package). The core decides whether an AI agent's proposed action
(a file write, a shell command, a database statement) is allowed, needs human
approval, or is denied. It has seven parts:

- **Policy evaluation** (`policy.dfy`, with `glob.dfy` for `fnmatch`). A
  versioned policy holds rules with optional match predicates. Among the
  enabled rules that match, the evaluator picks the one with the least
  `(priority, -specificity, index)`. If no rule matches, it falls back to the
  policy default. Every rule leaves one entry in a trace.
- **Policy presets** (`presets.dfy`): the bundled `startup`, `fintech` and
  `games` policies, their metadata, and the lookups that report unknown ids.
- **Prompt-injection scanning** (`prompt_scanner.dfy`):
  - six regex rules scanned over text cut to a length limit;
  - an explicit-stack walk of the nested payload, bounded in depth and in the
    number of strings;
  - de-duplication of findings by `(reason_id, field, lower(snippet))`.
- **Descriptor integrity** (`descriptor_integrity.dfy`):
  - hash pins normalised to `sha256:<64 hex>`;
  - a validated allowlist of pins per descriptor name;
  - the evaluator that checks an explicit pin and then the allowlist, and
    otherwise fails closed or open.
- **CI mode** (`ci.dfy`):
  - evaluates a list of actions and builds the report: per-action rows,
    decision totals, and the ten most frequent blocking reasons;
  - returns a stable exit code: 0 all allowed, 2 approval needed, 3 denied,
    4 error;
  - includes the actions-file loader and `main` after argument parsing.
- **Domain events** (`event_types.dfy`): the event classes, the type
  registry, and `deserialize_event` with its fallback to the generic class.
- **A2A task store** (`task_store.dfy`): an in-memory store of tasks with save,
  get, delete, listing of active tasks and age-based cleanup. It is modelled
  as a class whose methods update its map in place.

`actions.dfy` gives the shared vocabulary (risk levels, action types, decoded
JSON, the action request). `text.dfy` holds the Python string operations the
core relies on (`strip`, `lower`, `in`, sorting, decimal rendering).
`wrappers.dfy` holds `Option` and `Result`.

The code is imperative in several places, and there the model is too:
- the evaluator's rule loop;
- the duplicate-id check;
- the scanner's rule loop, payload stack walk and de-duplication;
- the allowlist validation;
- the CI report loop and blocking-reason tally;
- the actions loader;
- the task store.

Each of these is a `method` proved equal to a specification function. The
properties the code promises are proved about those functions.

The regular-expression engine, SHA-256, the impact analyzer, pydantic's
validation of an action request, the clock and UUID generation are all
outside this model. They appear as function-valued or plain parameters
(`re`, `digest`, `analyze`, `validate`, `co`, `now`, `freshId`).

## Model

| member | source | states |
|---|---|---|
| Policy.RiskSeverity | src/agent_polis/governance/policy.py:24-33 | risk ranks 0..3; 0 exactly for low, 3 exactly for critical |
| Policy.NewRule | src/agent_polis/governance/policy.py:42-56 | a rule built with only an id and a decision has priority 100, is enabled and declares no predicate |
| Policy.ValidateRiskBounds | src/agent_polis/governance/policy.py:58-63 | the validator returns the rule unchanged, or the inverted-bounds error; the error needs both bounds present |
| Policy.RiskBoundsAcceptedIffSatisfiable | src/agent_polis/governance/policy.py:58-63 | a rule passes the bounds check exactly when some risk level lies within its bounds |
| Policy.Specificity | src/agent_polis/governance/policy.py:65-73 | specificity is the number of declared predicate kinds, at most 5 |
| Policy.SpecificityCountsKinds | src/agent_polis/governance/policy.py:65-73 | the count of declared kinds equals the sum of the five 0/1 terms |
| Policy.Matches | src/agent_polis/governance/policy.py:186-208 | `_matches`; its properties are stated by MatchesIffDeclaredHold |
| Policy.MatchesIffDeclaredHold | src/agent_polis/governance/policy.py:186-208 | a rule matches exactly when every predicate it declares holds; undeclared predicates impose nothing |
| Glob.StarMatchesAll | src/agent_polis/governance/policy.py:190-192 | the glob `*` matches every target |
| Glob.LiteralMatchesItself | src/agent_polis/governance/policy.py:190-192 | a glob without wildcards matches exactly the identical target |
| Glob.PrefixStarMatch | src/agent_polis/governance/policy.py:190-192 | `p*` with a literal `p` matches exactly the targets that start with `p` (the `docs/*` rules) |
| Text.ContainsIff | src/agent_polis/governance/policy.py:195-198 | substring search finds the needle exactly when it occurs at some position |
| Policy.CandidatesOfExactly | src/agent_polis/governance/policy.py:151-162 | the candidate list holds exactly the keys of the enabled matching rules |
| Policy.MinCandidate | src/agent_polis/governance/policy.py:173 | `min(candidates)` is a candidate and no candidate's key is smaller |
| Policy.SelectionIsLeastKey | src/agent_polis/governance/policy.py:164-173 | no winner exactly when no enabled rule matches; otherwise the winner is enabled, matches and beats every other eligible rule on (priority, -specificity, index) |
| Policy.LowestPriorityWins | src/agent_polis/governance/policy.py:157-173 | an eligible rule with strictly the lowest priority is selected |
| Policy.RuleTraces | src/agent_polis/governance/policy.py:151-162 | one trace entry per rule |
| Policy.RuleTracesDescribeRules | src/agent_polis/governance/policy.py:151-162 | entry i is `skip:disabled` iff rule i is disabled, `match` iff it is eligible, `skip:no-match` iff enabled and not matching, with the rule's id, priority and specificity |
| Policy.NoMatchGivesDefault | src/agent_polis/governance/policy.py:164-171 | no rule is reported matched exactly when none is eligible; then the decision is the policy default and the trace ends with `default:<decision>:no-matching-rules` |
| Policy.SelectedRuleDecides | src/agent_polis/governance/policy.py:173-184 | when some rule is eligible, the result carries the decision, id, priority and specificity of the rule that beats all others, and the trace ends with its `selected` entry |
| Policy.CollectCandidates | src/agent_polis/governance/policy.py:148-162 | the loop builds exactly the candidate list and the trace of the specification |
| Policy.Outcome | src/agent_polis/governance/policy.py:145-184 | what `evaluate` returns for a valid input; its properties are stated by OutcomeOfLeast, NoMatchGivesDefault, SelectedRuleDecides and SelectionIsLeastKey |
| Policy.OutcomeOfLeast | src/agent_polis/governance/policy.py:164-184 | the result is determined by the least candidate: its rule's decision, priority and specificity, or the default when there is none |
| Policy.Evaluate | src/agent_polis/governance/policy.py:133-184 | an action request without a risk level is rejected with the fixed message; otherwise the result is the evaluation of the input (taken from the request and risk level, or given directly) |
| Policy.DuplicateIdListExactly | src/agent_polis/governance/policy.py:85-91 | an id is recorded as duplicate exactly when two rules share it |
| Policy.UniqueIffNoDuplicates | src/agent_polis/governance/policy.py:85-92 | rule ids are unique exactly when no duplicate is recorded |
| Policy.ValidateUniqueRuleIds | src/agent_polis/governance/policy.py:85-95 | succeeds exactly when rule ids are unique; the error lists each duplicated id once, in sorted order |
| Policy.FirstRuleError | src/agent_polis/governance/policy.py:42-63 | no rule error exactly when every rule is valid (non-empty id, consistent risk bounds) |
| Policy.LoadPolicy | src/agent_polis/governance/policy.py:211-216 | loading succeeds exactly on a valid configuration and returns it unchanged |
| Presets.TablesAgree | src/agent_polis/governance/presets.py:26-48 | the policy table and the metadata table have the same ids, and every metadata record is valid and carries its own id |
| Presets.FindMetadata | src/agent_polis/governance/presets.py:169-174 | the lookup finds a record exactly when one has the id, and returns a record with that id |
| Presets.GetPresetMetadata | src/agent_polis/governance/presets.py:169-174 | known ids give their valid metadata; unknown ids give the `Unknown preset id '…` error |
| Presets.UnknownPresetMessage | src/agent_polis/governance/presets.py:172-173 | the message begins with the fixed prefix followed by the requested id |
| Presets.PresetsAreValid | src/agent_polis/governance/presets.py:48-161 | each bundled policy passes validation, defaults to `require_approval` and has rules |
| Presets.LoadPolicyPreset | src/agent_polis/governance/presets.py:177-182 | loading succeeds exactly for a bundled id and returns that validated policy; unknown ids give the prefixed error |
| Presets.ListPolicyPresets | src/agent_polis/governance/presets.py:164-166 | the listing is a permutation of the catalog, sorted by id |
| Presets.SortedById | src/agent_polis/governance/presets.py:166 | sorting by id is a permutation that is ordered by id |
| Presets.SecretsAreDenied | src/agent_polis/governance/presets.py:53-66 | in every preset a target naming a secret fragment (case-insensitively) is denied by `deny-secrets-and-keys` |
| Presets.StartupDeniesOnlySecrets | src/agent_polis/governance/presets.py:49-82 | the startup preset denies exactly the targets that name a secret fragment |
| Presets.GamesDeniesOnlySecrets | src/agent_polis/governance/presets.py:125-160 | the games preset denies exactly the targets that name a secret fragment |
| Presets.FintechDenies | src/agent_polis/governance/presets.py:83-124 | the fintech preset denies exactly secret-naming targets and critical-risk actions; a critical action on a non-secret target is denied by `deny-critical-risk` |
| Presets.FintechAllowsOnlyLowRiskDocs | src/agent_polis/governance/presets.py:83-124 | fintech allows only low-risk file writes or creations under `docs/` |
| Presets.GamesAllowsAssets | src/agent_polis/governance/presets.py:144-150 | games allows low or medium writes and creations under `assets/` that name no secret, through the assets rule |
| Presets.NoSecretWithoutLetters | src/agent_polis/governance/presets.py:57-66 | a target lacking the letters e, h, i and w names no secret fragment |
| Presets.CriticalWriteScenario | src/agent_polis/governance/presets.py:83-124 | a critical write to `src/app.py` is denied by fintech's critical rule but not denied by startup |
| Presets.AssetWriteScenario | src/agent_polis/governance/presets.py:125-160 | a medium write to `assets/hero.png` is allowed by games and not allowed by fintech |
| Ci.OfferedPresetsLoad | src/agent_polis/ci.py:171-176 | every preset the command line offers loads |
| PromptScanner.SeverityToRiskIsOrderIsomorphism | src/agent_polis/governance/prompt_scanner.py:30-47 | severity-to-risk mapping is a bijection that preserves rank |
| PromptScanner.MaxSeverity | src/agent_polis/governance/prompt_scanner.py:65-72 | low for no findings; otherwise a severity some finding has, ranked at least as high as every finding's |
| PromptScanner.MaxRiskLevel | src/agent_polis/governance/prompt_scanner.py:74-76 | the risk level ranks at least as high as every finding's mapped severity and is the mapped severity of some finding; low for no findings |
| PromptScanner.RiskFactors | src/agent_polis/governance/prompt_scanner.py:78-80 | one `[reason_id] message` string per finding, in order |
| PromptScanner.NewScanner | src/agent_polis/governance/prompt_scanner.py:160-171 | default rules unless rules are given; text limit clamped to at least 1, payload limits to at least 0, otherwise kept |
| PromptScanner.FindingFor | src/agent_polis/governance/prompt_scanner.py:197-206 | a finding carries the rule's id, severity and message and the field; its snippet is the first min(160, length) characters of the stripped match, empty exactly for a blank match |
| PromptScanner.RuleFindings | src/agent_polis/governance/prompt_scanner.py:193-207 | at most one valid finding per rule, each for the scanned field with a snippet of at most 160 characters |
| PromptScanner.TextFindings | src/agent_polis/governance/prompt_scanner.py:185-207 | every finding of a text is valid, for that field, with a bounded snippet |
| PromptScanner.ScanText | src/agent_polis/governance/prompt_scanner.py:185-207 | the rule loop computes exactly the specified findings of the text |
| PromptScanner.FindingsFollowRules | src/agent_polis/governance/prompt_scanner.py:193-206 | findings come from strictly increasing rule indices, one for each rule whose pattern matches, in rule order |
| PromptScanner.BlankTextHasNoFindings | src/agent_polis/governance/prompt_scanner.py:187-188 | blank text has no findings |
| PromptScanner.OnlyScannedPrefixMatters | src/agent_polis/governance/prompt_scanner.py:187-190 | when the first part up to the character limit is not blank, text beyond the limit never changes the findings |
| PromptScanner.Capped | src/agent_polis/governance/prompt_scanner.py:234-237 | the yielded strings are a prefix of all strings: all of them when the cap is 0 or not reached, exactly `cap` otherwise |
| PromptScanner.Children | src/agent_polis/governance/prompt_scanner.py:240-249 | every pushed child is one level deeper and its path extends the parent's |
| PromptScanner.ChildrenSmaller | src/agent_polis/governance/prompt_scanner.py:240-249 | the children of a container are smaller than it, so the stack walk terminates |
| PromptScanner.PushChildren | src/agent_polis/governance/prompt_scanner.py:240-249 | pushing in reverse makes the children pop in container order, ahead of the older stack |
| PromptScanner.FrameLeaves | src/agent_polis/governance/prompt_scanner.py:219-249 | the pre-order reference walk of `_iter_string_fields`, before the string cap; its properties are stated by FrameLeavesBounds and IterStringFields |
| PromptScanner.IterStringFields | src/agent_polis/governance/prompt_scanner.py:219-249 | the stack walk yields exactly the depth-first strings within the depth bound, cut to the string cap |
| PromptScanner.FrameLeavesBounds | src/agent_polis/governance/prompt_scanner.py:230-231 | every yielded string is at or below its frame's depth, within the depth bound when there is one, and its path extends the frame's |
| PromptScanner.PayloadLeavesWithinDefaultDepth | src/agent_polis/governance/prompt_scanner.py:97 | with the default limits every payload string lies at depth 1..32 under `payload` |
| PromptScanner.LeafFindings | src/agent_polis/governance/prompt_scanner.py:214-217 | every payload finding is valid and belongs to a visited field |
| PromptScanner.ScanPayload | src/agent_polis/governance/prompt_scanner.py:209-217 | the payload scan is the concatenation of the text scans of the visited strings, in visiting order |
| PromptScanner.PayloadFindingsUnderPayload | src/agent_polis/governance/prompt_scanner.py:209-217 | every payload finding's field starts with `payload` |
| PromptScanner.Dedup | src/agent_polis/governance/prompt_scanner.py:251-266 | the de-duplicated list has distinct keys, the same key set, and only input findings |
| PromptScanner.DedupeFindings | src/agent_polis/governance/prompt_scanner.py:251-266 | the loop computes exactly the de-duplicated list |
| PromptScanner.DedupInOrder | src/agent_polis/governance/prompt_scanner.py:251-266 | the de-duplicated list is a subsequence of the input: kept findings stay in input order |
| PromptScanner.DedupKeepsFirst | src/agent_polis/governance/prompt_scanner.py:255-264 | every kept finding is the first input finding with its key |
| PromptScanner.DedupOfDistinctIsIdentity | src/agent_polis/governance/prompt_scanner.py:251-266 | a list whose keys are already distinct is kept unchanged |
| PromptScanner.DedupIdempotent | src/agent_polis/governance/prompt_scanner.py:251-266 | de-duplicating twice equals de-duplicating once |
| PromptScanner.RequestFindings | src/agent_polis/governance/prompt_scanner.py:173-183 | what `scan_action_request` returns; its properties are stated by RequestScanProperties and ScanActionRequest |
| PromptScanner.ScanActionRequest | src/agent_polis/governance/prompt_scanner.py:173-183 | the method computes the specified scan of description, target, context (when non-empty) and payload, de-duplicated |
| PromptScanner.RequestScanProperties | src/agent_polis/governance/prompt_scanner.py:173-183 | the scan result has distinct keys, the same keys as the raw findings, only valid findings, and covers the description's findings |
| DescriptorIntegrity.NormalizeHashPin | src/agent_polis/governance/descriptor_integrity.py:18-27 | a normalised pin is `sha256:` and 64 lowercase hex digits; the only error is the format message |
| DescriptorIntegrity.AcceptsBare | src/agent_polis/governance/descriptor_integrity.py:18-27 | a bare digest is accepted and prefixed |
| DescriptorIntegrity.AcceptsPrefixed | src/agent_polis/governance/descriptor_integrity.py:18-27 | a prefixed digest is accepted unchanged |
| DescriptorIntegrity.NormalizeIdempotent | src/agent_polis/governance/descriptor_integrity.py:18-27 | normalising a normalised pin gives it back |
| DescriptorIntegrity.AcceptsPaddedAnyCase | src/agent_polis/governance/descriptor_integrity.py:20 | surrounding whitespace and upper-case hex are accepted and normalised away |
| DescriptorIntegrity.WrongLengthRejected | src/agent_polis/governance/descriptor_integrity.py:21-26 | a stripped pin of length other than 64 or 71 is rejected |
| DescriptorIntegrity.DescriptorHash | src/agent_polis/governance/descriptor_integrity.py:45-49 | a descriptor hash is always a well-formed pin |
| DescriptorIntegrity.NormalizePins | src/agent_polis/governance/descriptor_integrity.py:81-83 | the pins are accepted exactly when every item is present and normalises, and are then exactly the set of the items' normal forms, no larger than the input; otherwise the error is the pin-format message |
| DescriptorIntegrity.CollectPins | src/agent_polis/governance/descriptor_integrity.py:81-83 | for any normaliser that yields only well-formed pins, the collected pins are a strictly sorted set of well-formed pins no larger than the input |
| DescriptorIntegrity.CollectAccepts | src/agent_polis/governance/descriptor_integrity.py:81-83 | collecting succeeds exactly when every item is present and normalises; a failure carries the pin-format message |
| DescriptorIntegrity.CollectContents | src/agent_polis/governance/descriptor_integrity.py:81-83 | the collected set holds exactly the items' normal forms |
| DescriptorIntegrity.PinNormaliser | src/agent_polis/governance/descriptor_integrity.py:18-27 | `normalize_hash_pin` yields only well-formed pins and fails only with the format message |
| DescriptorIntegrity.PinText | src/agent_polis/governance/descriptor_integrity.py:81-83 | `str()` of a list item as far as it can become a pin: a string is itself, a non-negative integer its decimal digits, anything else never normalises |
| DescriptorIntegrity.IntegerPinAccepted | src/agent_polis/governance/descriptor_integrity.py:74-83 | a list holding one 64-digit JSON integer is accepted as the bare digest of those digits |
| DescriptorIntegrity.NonStringPinRejected | src/agent_polis/governance/descriptor_integrity.py:69-83 | a list item that is a boolean, null, float, negative number or container is rejected with the pin-format message (or the blank-name message first) |
| DescriptorIntegrity.EntryPins | src/agent_polis/governance/descriptor_integrity.py:72-83 | an entry's pins, when accepted, are a set of well-formed pins; list items pass through `str()` first; EntryPinsSpec states which pins and which errors |
| DescriptorIntegrity.EntryPinsSpec | src/agent_polis/governance/descriptor_integrity.py:72-83 | an entry is accepted exactly when it is a string or a list whose every `str()` normalises, and then holds exactly those normal forms; otherwise the error is the entry-type message or the pin-format message |
| DescriptorIntegrity.AllowlistOf | src/agent_polis/governance/descriptor_integrity.py:67-85 | an accepted allowlist maps stripped non-empty names to sets of well-formed pins; AllowlistAccepts and AllowlistStoresLastPins state which names and pins |
| DescriptorIntegrity.AllowlistAccepts | src/agent_polis/governance/descriptor_integrity.py:67-85 | an object is accepted exactly when every entry has a non-blank name and pins that normalise |
| DescriptorIntegrity.AllowlistStoresLastPins | src/agent_polis/governance/descriptor_integrity.py:81-83 | each stripped name maps to the pin set of the last entry with that name, as the dict assignment leaves it |
| DescriptorIntegrity.LastPinsStored | src/agent_polis/governance/descriptor_integrity.py:81-83 | the last entry of an accepted object stores its own pin set under its stripped name |
| DescriptorIntegrity.OtherPinsKept | src/agent_polis/governance/descriptor_integrity.py:81-83 | the last entry leaves every other name's pins as the earlier entries stored them |
| DescriptorIntegrity.LastEntryAccepted | src/agent_polis/governance/descriptor_integrity.py:67-85 | after an accepted prefix, the object is accepted exactly when its last entry is |
| DescriptorIntegrity.AddEntry | src/agent_polis/governance/descriptor_integrity.py:68-83 | an entry fails exactly for a blank name or bad pins; otherwise its stripped name maps to its pins and other names are unchanged |
| DescriptorIntegrity.StoreEntry | src/agent_polis/governance/descriptor_integrity.py:68-83 | one loop iteration stores exactly the specified entry |
| DescriptorIntegrity.ValidateAllowlist | src/agent_polis/governance/descriptor_integrity.py:59-85 | the validator loop computes the specified allowlist: empty for null, the error for a non-object, and for an object the names and pin sets AllowlistAccepts and AllowlistStoresLastPins describe |
| DescriptorIntegrity.SingleStringPin | src/agent_polis/governance/descriptor_integrity.py:72-73 | a single string pin is wrapped into a one-pin set under the stripped name |
| DescriptorIntegrity.LastEntryStored | src/agent_polis/governance/descriptor_integrity.py:81 | a later entry adds its stripped name to the names already stored |
| DescriptorIntegrity.EveryNameStored | src/agent_polis/governance/descriptor_integrity.py:67-85 | every entry's stripped name appears in the accepted allowlist |
| DescriptorIntegrity.PolicyFromFields | src/agent_polis/governance/descriptor_integrity.py:52-57 | both flags default to true, and loading fails exactly when the allowlist fails |
| Actions.Get | src/agent_polis/governance/descriptor_integrity.py:107 | `dict.get`: present exactly when some entry has the key, and then the value of the last entry with it |
| DescriptorIntegrity.DescriptorName | src/agent_polis/governance/descriptor_integrity.py:107-112 | the name is present exactly when `name` is a non-blank string, and is that string stripped |
| DescriptorIntegrity.Evaluate | src/agent_polis/governance/descriptor_integrity.py:101-195 | fails only on a malformed explicit pin; reports the descriptor's hash and name; a denial carries no matched pin |
| DescriptorIntegrity.AllowedMeansVerified | src/agent_polis/governance/descriptor_integrity.py:115-195 | an allowed descriptor matches its explicit pin; under enforcement it has a name whose pins contain its hash; with neither check it is allowed only when the policy fails open |
| DescriptorIntegrity.ExplicitMismatchDeniesFirst | src/agent_polis/governance/descriptor_integrity.py:115-127 | an explicit pin that differs from the hash denies with the mismatch reason, before any allowlist check |
| DescriptorIntegrity.EnforcementBranches | src/agent_polis/governance/descriptor_integrity.py:129-168 | under enforcement: missing name, no pins, and hash not pinned each deny with their reason; a pinned hash is allowed with that pin |
| DescriptorIntegrity.ExplicitPinAllows | src/agent_polis/governance/descriptor_integrity.py:170-177 | with enforcement off, an explicit pin equal to the hash allows the descriptor with that pin as the matched pin and the explicit-pin reason |
| DescriptorIntegrity.ReasonText | src/agent_polis/governance/descriptor_integrity.py:118-193 | the eight reason messages; their properties are stated by ReasonTextsDistinct |
| DescriptorIntegrity.ReasonTextsDistinct | src/agent_polis/governance/descriptor_integrity.py:118-193 | reasons of different kinds never share a message text, whatever names, pins and hashes they carry |
| DescriptorIntegrity.FallbackFollowsFailClosed | src/agent_polis/governance/descriptor_integrity.py:179-195 | without enforcement and explicit pin, the descriptor is allowed exactly when the policy fails open |
| Ci.DecisionExitCode | src/agent_polis/ci.py:55-67 | 3 iff some action is denied; 2 iff none denied and some needs approval; 0 iff all allowed |
| Ci.ExitCodeOfConcat | src/agent_polis/ci.py:55-67 | the exit code of two batches is the larger of their codes |
| Ci.TotalsOf | src/agent_polis/ci.py:86-94 | each total counts the occurrences of its decision; the totals sum to the number of actions |
| Ci.ExitCodeFromTotals | src/agent_polis/ci.py:55-67 | the exit code follows from the totals alone: 3 if any deny, else 2 if any approval, else 0 |
| Ci.BumpCounts | src/agent_polis/ci.py:104 | incrementing a key adds one to its count and leaves every other count alone |
| Ci.BumpReasonSet | src/agent_polis/ci.py:104 | incrementing a key adds it to the recorded reasons |
| Ci.BumpDistinct | src/agent_polis/ci.py:104 | incrementing keeps each reason recorded once |
| Ci.BumpPositive | src/agent_polis/ci.py:104 | incrementing keeps every count at least 1 |
| Ci.TalliedCounts | src/agent_polis/ci.py:98-107 | tallying keys adds each key's number of occurrences to its count; recorded reasons stay distinct and counts positive |
| Ci.TopReasons | src/agent_polis/ci.py:122-125 | at most ten reasons, drawn from the counts, ordered by count descending then reason |
| Ci.TopReasonsCounted | src/agent_polis/ci.py:98-125 | each top reason is a blocking key, counted as often as it occurs, and the list is ordered by count descending then reason ascending |
| Ci.TopReasonsKeepTheBest | src/agent_polis/ci.py:122-125 | a blocking key left out of the top list means the list is full and every listed reason ranks above it |
| Ci.RankBeforeIsStrictOrder | src/agent_polis/ci.py:124 | the sort key (-count, reason) is a strict total order on distinct reasons |
| Ci.ReasonIds | src/agent_polis/ci.py:96 | the scanner reason ids are sorted, without repeats, and are exactly the reason ids of the findings |
| Ci.ScannerKeysDistinct | src/agent_polis/ci.py:105-107 | the `scanner:` keys of an action are distinct |
| Ci.BlockingKeysOfOne | src/agent_polis/ci.py:98-107 | one action adds each scanner reason at most once and its policy reason once, and only when it is not allowed |
| Ci.BlockingReasonsCounted | src/agent_polis/ci.py:98-107 | the tally of `scanner:x` is the number of non-allowed actions with a finding x; that of a policy reason is the number of non-allowed actions with that reason |
| Ci.CountBlockingReasons | src/agent_polis/ci.py:98-107 | allowed actions leave the counts unchanged; others tally their policy reason and then their scanner reasons |
| Ci.AssessKeepsRequest | src/agent_polis/ci.py:89-91 | an assessment fails exactly when the scan fails; it records the request, the analysed risk, the scan findings and the evaluation at that risk |
| Ci.AssessAction | src/agent_polis/ci.py:89-91 | the method computes exactly the specified assessment |
| Ci.SequencedInOrder | src/agent_polis/ci.py:88-120 | processing the actions succeeds exactly when every one does, and keeps all results in order |
| Ci.SequencedFirstError | src/agent_polis/ci.py:88-120 | the first failing action's error is the outcome |
| Ci.CiReport | src/agent_polis/ci.py:70-133 | what `generate_ci_report` returns; its properties are stated by ReportShape, ReportFailsAtFirstScanError and GenerateCiReport |
| Ci.GenerateCiReport | src/agent_polis/ci.py:70-133 | the loop computes exactly the specified report and exit code |
| Ci.ReportShape | src/agent_polis/ci.py:109-133 | schema version 1 and the policy version; one row per action, indexed in order, with its target, action type and sorted scanner ids; totals sum to the number of actions; the exit code follows the totals |
| Ci.ReportFailsAtFirstScanError | src/agent_polis/ci.py:88-91 | the first action whose scan fails aborts the report with that error |
| Ci.ActionList | src/agent_polis/ci.py:140-145 | the action list is the JSON list itself or the object's `actions` list; anything else gives the shape error |
| Ci.LoadActions | src/agent_polis/ci.py:136-152 | what `_load_actions_from_json` returns; its properties are stated by LoadedActions, FirstNonObjectReported, FirstInvalidReported and LoadActionsFromJson |
| Ci.LoadActionsFromJson | src/agent_polis/ci.py:136-152 | the loader computes exactly the specified action list |
| Ci.LoadedActions | src/agent_polis/ci.py:147-152 | loading succeeds exactly when every item is an object that validates, and yields their validations in order |
| Ci.FirstNonObjectReported | src/agent_polis/ci.py:148-150 | the first non-object item is reported with its index |
| Ci.FirstInvalidReported | src/agent_polis/ci.py:147-151 | when the first bad item is an object that fails validation, its validation message is reported |
| Ci.CiMain | src/agent_polis/ci.py:188-209 | what `main` writes and returns after argument parsing; its properties are stated by CiExitCodes and RunCi |
| Ci.RunCi | src/agent_polis/ci.py:188-209 | `main` writes exactly the specified output with the specified code |
| Ci.CiExitCodes | src/agent_polis/ci.py:188-209 | exit codes are 0, 2, 3 or 4; 4 exactly when the error payload (with schema version) is written; otherwise the code follows the report's totals |
| EventTypes.RegistryMatchesClasses | src/agent_polis/events/types.py:35-124 | each registry key is its class's default event type, every subclass is registered, and the base class is not |
| EventTypes.RegistryTags | src/agent_polis/events/types.py:109-124 | the registry holds exactly the fourteen event type names |
| EventTypes.ReadFieldGot | src/agent_polis/events/types.py:23-28 | a field is read when its value converts, or it is absent and has a default |
| EventTypes.Construct | src/agent_polis/events/types.py:15-31 | a constructed event has the requested class and carries every given field's converted value and every absent field's default; a failure names at least one field |
| EventTypes.ReadFieldIs | src/agent_polis/events/types.py:15-31 | a field read successfully is the given value converted, or the default when absent |
| EventTypes.ConstructDefaults | src/agent_polis/events/types.py:23-28 | absent fields take their defaults: fresh id, current time, empty data and metadata |
| EventTypes.ConstructAccepts | src/agent_polis/events/types.py:15-31 | well-formed fields always construct an event |
| EventTypes.ConstructRejects | src/agent_polis/events/types.py:15-31 | fields that are not well-formed never construct an event |
| EventTypes.StreamIdRequired | src/agent_polis/events/types.py:25 | an event without `stream_id` is rejected, naming that field |
| EventTypes.ClassFor | src/agent_polis/events/types.py:129 | a registered type selects its class; any other selects the base class |
| EventTypes.DeserializeEvent | src/agent_polis/events/types.py:127-130 | a deserialised event has the registered class, or the base class for an unknown type, and carries the stored fields' values |
| EventTypes.RegisteredTagNamesTheEvent | src/agent_polis/events/types.py:35-130 | a registered type without an explicit `event_type` field yields an event of that type and of a specific class |
| EventTypes.UnknownTagFallsBack | src/agent_polis/events/types.py:127-130 | an unknown type with well-formed fields yields a base-class event with the fields' event type and stream |
| EventTypes.UnknownTagNeedsEventType | src/agent_polis/events/types.py:127-130 | an unknown type whose fields lack `event_type` fails, naming that field |
| TaskStore.TaskStore.constructor | src/agent_polis/a2a/task_store.py:20-21 | a new store is empty and consistent |
| TaskStore.TaskStore.Save | src/agent_polis/a2a/task_store.py:23-26 | the task is stored under its id with the current time; other tasks are unchanged; a new id is added at the end of the order |
| TaskStore.TaskStore.Get | src/agent_polis/a2a/task_store.py:28-30 | a task is returned exactly when its id is stored, and it is the stored task, which carries that id |
| TaskStore.TaskStore.Delete | src/agent_polis/a2a/task_store.py:32-37 | returns whether the id existed; afterwards exactly that id is gone |
| TaskStore.TaskStore.ListActive | src/agent_polis/a2a/task_store.py:39-45 | exactly the stored tasks that are not completed, canceled or failed, each once |
| TaskStore.TaskStore.CleanupOld | src/agent_polis/a2a/task_store.py:47-57 | exactly the tasks updated before now minus the age limit are removed; the count returned is the number removed |
| TaskStore.TaskStore.DeleteEach | src/agent_polis/a2a/task_store.py:55-56 | the loop removes exactly the listed ids from the table and the order |
| TaskStore.ActiveOfExactly | src/agent_polis/a2a/task_store.py:42-45 | a task is listed active exactly when it is stored and its status is not terminal |
| TaskStore.StaleIdsExactly | src/agent_polis/a2a/task_store.py:51-54 | the collected ids are exactly the stored ids whose update time is before the cutoff, each once |
| TaskStore.RemovalKeepsConsistent | src/agent_polis/a2a/task_store.py:55-56 | removing keys from both the table and its order keeps the store consistent |
| TaskStore.RemoveAllTwice | src/agent_polis/a2a/task_store.py:55-56 | removing one set of keys and then another equals removing their union |
| TaskStore.CleanupCount | src/agent_polis/a2a/task_store.py:57 | removing present keys shrinks the table by their number |
| Text.StripIdempotent | src/agent_polis/governance/descriptor_integrity.py:20 | stripping twice equals stripping once |
| Text.SortBy | src/agent_polis/ci.py:122-125 | sorting is a permutation ordered by the given strict order |
| Text.SortedSet | src/agent_polis/governance/policy.py:93 | `sorted(set)` is strictly sorted and has exactly the input's elements |

## Left out

- I/O is left out. This covers reading policy, descriptor and actions files (`load_policy_from_file`, `load_descriptor_integrity_policy_from_file`, `evaluate_file`), YAML parsing, `_write_report` with its JSON rendering, and stdout. The loaders start from the decoded JSON value, or from the decode error's message.
- Argument parsing in `main` is left out. `RunCi` starts from the decoded actions file and the chosen preset id. A preset id outside `startup`, `fintech` and `games` stops in argument parsing with exit status 2 (ci.py:171-188), while `CiMain` returns `Failed` with exit code 4 for it. The `--working-directory` option only reaches the impact analyzer, which is a parameter.
- The impact analyzer (`ImpactAnalyzer.analyze`) is the parameter `analyze`. The module defining it is not part of this model.
- Regular-expression search is the parameter `re`. It is applied to the first `max_text_chars` characters and returns the first match's text. The rules keep their pattern source and flags as data, so the six patterns are not interpreted.
- A JSON number is kept as the text it was written with. Two spellings of one number (`1.0` and `1.00`, say) are then different values, where Python may decode them to the same float. Booleans and null are kept as themselves, so a descriptor that differs from another only in a number, a boolean or null is a different input to `digest`.
- A decoded JSON object never repeats a key. The model's objects may: `Actions.Get` then reads the last entry, as `json.loads` does, but the payload walk and the allowlist loop visit every entry.
- SHA-256 over the canonical JSON (`canonicalize_descriptor`) is the parameter `digest`, assumed to give 64 lowercase hex digits. The `TypeError` for values that cannot be serialised is left out, because decoded JSON always serialises.
- Policy.LoadPolicy starts from an already-typed configuration. pydantic's coercion of raw dictionaries is left out, and so are its errors for wrongly typed fields (an unknown decision string, say). The model keeps the checks the validators add: a non-empty version and non-empty rule ids, risk bounds, and unique ids. Its error is `Invalid policy configuration: ` followed by the message of the first check that fails. pydantic renders a `ValidationError` as several lines that list every failing field, and that rendering is not modelled.
- pydantic validation of an action request is the parameter `validate`. The message text of a pydantic `ValidationError` is approximated. In particular, `Ci.ScanErrorMessage` stands for the error raised when a finding's snippet is empty.
- Event field coercions are the parameters in `Coercions`: UUID parsing and datetime parsing. The current time and a fresh UUID are the parameters `now` and `freshId`.
- `actions/models.py` and `a2a/models.py` are not part of this model. An action request has only the fields the core reads. A task has only an id, a status and an update time. Its status is completed, canceled, failed, or another named status.
- `str.lower()` is modelled on ASCII letters only. `str.strip()` uses Python's whitespace set, written out.
- `fnmatch` is modelled for `*`, `?` and literal characters. Character classes (`[...]`) and the platform's case normalisation are left out. The bundled presets use only `*`.
- Rule `description` and `metadata`, policy `metadata`, and preset tags are carried as plain data or dropped. No operation reads them.
- Python sets and tuples in a payload are modelled as JSON arrays. A set's iteration order is unspecified in Python.
- Events are modelled as immutable datatype values, which is what `frozen = True` asks for. The event store in `events/store.py` is not part of this model.
- EventTypes.DeserializeEvent: an unknown type builds the generic `DomainEvent`, which has no default `event_type` and requires `stream_id`, so it fails when the fields lack them.
- The global store (`_task_store`, `get_task_store`) is left out. A caller holds a `TaskStore` object.
- TaskStore.TaskStore.Save stores a copy of the task with its new update time. The source also changes the caller's task object in place, and later changes to that object (aliasing) are not modelled.
- The task store's `async` methods are ordinary methods. Interleavings between awaits are not modelled, and the store's methods never await.
- TaskStore.TaskStore.CleanupOld: the time is a number of microseconds. The `timedelta` overflow that Python raises for enormous `max_age_hours` is not modelled.
- TaskStore.TaskStore.DeleteEach requires the ids to be present. Python's `del` would raise `KeyError` otherwise, but `cleanup_old` only ever passes ids it has just read from the table.
