# udae-backend audit core, modelled in Dafny

udae-backend is a deterministic document-audit backend. This project models its core in Dafny 4.11 and proves properties of the model. The core has four parts:

- **Content-addressed records** (`core/models`). `Rule`, `Snapshot`, `Evidence` and `Verdict` each derive their id from a dict of their own content fields. The derivation is `hash_json`: SHA-256 over the UTF-8 bytes of `json.dumps(..., sort_keys=True, separators=(',', ':'))`. Equality is equality of ids.
- **The pipeline kernel** (`core/kernel`). It runs an ordered list of stages, records every result, and raises `BlockingStageError` at the first result that failed and is blocking.
- **The Araña decision engine** (`core/arana`). It partitions verdicts four ways by failure and by `severity == "error"`. The decision fails exactly when some blocking failure exists. The decision hash is taken over the status and the sorted verdict-id lists.
- **The APA7 layout stage** (`core/amanecer/apa7_layout`).
  - It reads eight layout facts from the context, unchanged.
  - It checks them against a fixed table of eleven APA 7th edition rules, giving one verdict per rule checked, each with one piece of evidence.
  - It reports a blocking stage result with the verdict dicts, the pass/fail counts and a hash of the verdicts. An exception becomes a technical error instead.

Module layout:

- One module per source file:
  - `canonical_json.dfy` (json.dumps), `hashes.dfy`, `rule.dfy`, `snapshot.dfy`, `evidence.dfy`, `verdict.dfy`;
  - `kernel_stages.dfy`, `kernel_errors.dfy`, `kernel_pipeline.dfy`;
  - `arana_aggregator.dfy`, `arana_precedence.dfy`, `arana_decision.dfy`, `arana_stage.dfy`;
  - `apa7_rules.dfy`, `apa7_extractor.dfy`, `apa7_validator.dfy`, `apa7_stage.dfy`.
- Two helper modules: `wrappers.dfy` (Option and Result) and `sorting.dfy` (Python's string order, `sorted` and list comprehension).

How the source's forms are modelled:

- JSON values are the datatype `CanonicalJson.Json`. A dict keeps its insertion order, as a Python dict does, and the serialiser sorts the keys.
- The pipeline is a class. Its `results` field is reset and appended to by the `Execute` loop.
- The Araña aggregator and the APA7 validator's `validate_apa7_layout` and `_evaluate_font_rules` are methods with loops or conditionals. Each is proved equal to a specification function, and the properties are proved about those functions.
- Everything else is functions and lemmas.
- Python exceptions are modelled as follows:
  - the pipeline's `raise` is the `Halted` variant of the run outcome;
  - a `TypeError` or `AttributeError` in the APA7 stage is the `Err` case of a `Result`, carrying the text `str(e)` would have.

## Model

| member | source | states |
|---|---|---|
| Hashes.EncodeChar | core/models/hashes.py:37 | UTF-8 encodes one character in 1 to 4 bytes; ASCII characters become one byte equal to their code |
| Hashes.Utf8 | core/models/hashes.py:37 | `str.encode('utf-8')`: never shorter than the text |
| Hashes.Utf8Ascii | core/models/hashes.py:37 | on ASCII text the encoding is byte-for-byte the character codes |
| Hashes.Utf8AsciiInjective | core/models/hashes.py:37 | different ASCII texts encode to different bytes |
| Hashes.Sha256Hex | core/models/hashes.py:21 | `hexdigest()` is 64 lower-case hexadecimal digits |
| Hashes.HashBytes | core/models/hashes.py:12-21 | hash_bytes returns 64 lower-case hex digits |
| Hashes.DigestInput | core/models/hashes.py:36-37 | the bytes hash_json digests are the UTF-8 encoding of the compact, key-sorted serialisation, one byte per character |
| Hashes.HashJson | core/models/hashes.py:24-37 | hash_json is hash_bytes of DigestInput: 64 lower-case hex digits |
| Hashes.HashString | core/models/hashes.py:40-49 | hash_string is hash_bytes of the UTF-8 encoding: 64 lower-case hex digits |
| Hashes.DigestInputInjective | core/models/hashes.py:36-37 | values with different canonical texts are hashed over different bytes |
| Hashes.HashJsonKeyOrderIndependent | core/models/hashes.py:36 | two dicts with the same key/value pairs inserted in different orders have the same hash_json |
| Hashes.HashJsonScalarSensitive | core/models/hashes.py:36-37 | dicts with the same keys whose string, boolean or null values differ are hashed over different bytes |
| Hashes.HashJsonListOrderSensitive | core/models/hashes.py:36 | list order is not normalised: swapping two different strings of a list changes the hashed bytes |
| Hashes.CaseChangeSensitive | tests/determinism/test_hash_stability.py:30-36 | `{'field': 'value'}` and `{'field': 'VALUE'}` are hashed over different bytes |
| CanonicalJson.Nullable | core/models/rule.py:34 | an Optional string is null exactly when it is None |
| CanonicalJson.StringList | core/models/verdict.py:39 | a Python list of strings, element by element |
| CanonicalJson.Keys | core/models/hashes.py:36 | the keys of a dict, in insertion order |
| CanonicalJson.IndexOf | core/amanecer/apa7_layout/extractor.py:39-46 | position of the first member with the key |
| CanonicalJson.IndexOfDistinct | core/amanecer/apa7_layout/extractor.py:39-46 | in a dict, a key's lookup finds its own member |
| CanonicalJson.Get | core/amanecer/apa7_layout/extractor.py:34-46 | `d.get(k)`: None exactly when the key is absent, else the value stored under it |
| CanonicalJson.GetPermutation | core/models/hashes.py:36 | permuting a dict's members changes no lookup |
| CanonicalJson.EscapeChar | core/models/hashes.py:36 | with ensure_ascii, each character is written as printable ASCII that does not begin with a quote |
| CanonicalJson.Escape | core/models/hashes.py:36 | the body of a string literal is pure printable ASCII |
| CanonicalJson.Hex4Injective | core/models/hashes.py:36 | different code units get different `\uXXXX` escapes |
| CanonicalJson.Hex4RoundTrip | core/models/hashes.py:36 | reading a `\uXXXX` escape back gives the code unit written |
| CanonicalJson.DecodeEscapeChar | core/models/hashes.py:36 | every character's escape is read back as that character, surrogate pairs included |
| CanonicalJson.UnescapeEscape | core/models/hashes.py:36 | round trip: the escaped body of a string literal is read back as the original string, up to the closing quote |
| CanonicalJson.QuoteUnique | core/models/hashes.py:36 | a string literal is never a proper prefix of another, so the text determines the string |
| CanonicalJson.NumberText | core/models/hashes.py:36 | a number is written as non-empty ASCII text |
| CanonicalJson.Dumps | core/models/hashes.py:36 | `json.dumps(obj, sort_keys=True, separators=sep)`: with ASCII separators the text is pure ASCII |
| CanonicalJson.KeyOrderIndependent | core/models/hashes.py:36 | sort_keys: dicts holding the same key/value pairs in any insertion order serialise identically |
| CanonicalJson.ValuesCongruent | core/models/hashes.py:36 | dicts with the same key order whose values serialise alike serialise alike |
| CanonicalJson.ScalarTextUnique | core/models/hashes.py:36 | a string, boolean or null value is determined by the text that starts with it |
| CanonicalJson.ArrayStringSensitive | core/models/hashes.py:36 | lists that agree up to position p and hold different strings there serialise differently |
| CanonicalJson.ArrayElementSensitive | core/amanecer/apa7_layout/validator.py:263-264 | lists that differ in one element whose texts differ serialise differently |
| CanonicalJson.ArrayOrderSensitive | core/models/hashes.py:36 | swapping two different strings of a list changes the serialised text |
| CanonicalJson.ScalarObjectSensitive | core/models/hashes.py:36 | dicts with the same key order that differ only in string, boolean or null values serialise differently |
| RuleRecord.Rule.Content | core/models/rule.py:37-49 | the hashed dict holds exactly the eight content fields, condition included (null when None) |
| RuleRecord.Rule.Id | core/models/rule.py:49 | rule_id is hash_json of the content: 64 lower-case hex digits, computed from the fields, never supplied |
| RuleRecord.Rule.Equals | core/models/rule.py:60-64 | `__eq__` compares ids, so rules with the same hashed content are equal |
| RuleRecord.ContentInjective | core/models/rule.py:37-49 | two rules have the same hashed dict exactly when they are the same rule |
| RuleRecord.DefaultConditionHashed | core/models/rule.py:34-44 | a rule built without a condition hashes a null condition |
| RuleRecord.DistinctRulesDistinctDigestInput | core/models/rule.py:37-49 | different rules are hashed over different bytes |
| SnapshotRecord.Snapshot.Content | core/models/snapshot.py:31-39 | the hashed dict holds exactly the five content fields |
| SnapshotRecord.Snapshot.Id | core/models/snapshot.py:40 | snapshot_id is hash_json of the content: 64 lower-case hex digits |
| SnapshotRecord.Snapshot.Equals | core/models/snapshot.py:51-55 | `__eq__` compares ids, so snapshots with the same hashed content are equal |
| SnapshotRecord.ContentInjective | core/models/snapshot.py:31-39 | two snapshots have the same hashed dict exactly when they are equal |
| SnapshotRecord.ExtractedFieldOrderIndependent | core/models/snapshot.py:33-40 | the insertion order of extracted_fields does not change the id, so the snapshots are equal |
| SnapshotRecord.DistinctSnapshotsDistinctDigestInput | core/models/snapshot.py:33-40 | with the same extracted fields, a change to any other content field changes the hashed bytes |
| EvidenceRecord.Evidence.Content | core/models/evidence.py:31-39 | the hashed dict holds exactly the five content fields, source_context included (null when None) |
| EvidenceRecord.Evidence.Id | core/models/evidence.py:40 | evidence_id is hash_json of the content: 64 lower-case hex digits |
| EvidenceRecord.Evidence.Equals | core/models/evidence.py:51-55 | `__eq__` compares ids, so evidence with the same hashed content is equal |
| EvidenceRecord.ContentInjective | core/models/evidence.py:31-39 | two pieces of evidence have the same hashed dict exactly when they are equal |
| EvidenceRecord.DefaultSourceContextHashed | core/models/evidence.py:28-38 | evidence built without a source context hashes a null context |
| EvidenceRecord.DistinctEvidenceDistinctDigestInput | core/models/evidence.py:33-40 | with the same confidence, a change to any other content field changes the hashed bytes |
| VerdictRecord.Verdict.Content | core/models/verdict.py:33-42 | the hashed dict holds the six content fields, with the evidence ids sorted |
| VerdictRecord.Verdict.Id | core/models/verdict.py:43 | verdict_id is hash_json of the content: 64 lower-case hex digits |
| VerdictRecord.Verdict.Equals | core/models/verdict.py:54-58 | `__eq__` compares ids, so verdicts with the same hashed content are equal |
| VerdictRecord.EvidenceOrderIndependent | core/models/verdict.py:39 | permuting evidence_ids leaves verdict_id unchanged, so the verdicts are equal |
| VerdictRecord.StringListInjective | core/models/verdict.py:39 | equal JSON string lists come from equal lists |
| VerdictRecord.ContentCharacterisation | core/models/verdict.py:35-42 | two verdicts have the same hashed dict exactly when they agree on every field and their evidence ids are a permutation of each other |
| VerdictRecord.DistinctVerdictsDistinctDigestInput | core/models/verdict.py:35-43 | with the same evidence ids in any order, a change to any other field changes the hashed bytes |
| Sorting.LessTotal | core/models/verdict.py:39 | Python's string order is total; with LessIrreflexive, LessAsymmetric and LessTransitive it is a strict total order |
| Sorting.LessIrreflexive | core/models/verdict.py:39 | no string is below itself |
| Sorting.LessAsymmetric | core/models/verdict.py:39 | two strings are never each below the other |
| Sorting.LessTransitive | core/models/verdict.py:39 | string order is transitive |
| Sorting.SortStrings | core/models/verdict.py:39 | `sorted` returns a sorted permutation of its input |
| Sorting.SortStringsMembers | core/arana/decision.py:29-31 | sorting keeps exactly the elements it was given |
| Sorting.SortedUnique | core/models/verdict.py:39 | a sorted list is determined by its elements |
| Sorting.SortPermutationInvariant | core/models/verdict.py:39 | permuted inputs sort to the same list |
| Sorting.SortOfSorted | core/arana/decision.py:29-31 | sorting a sorted list changes nothing |
| Sorting.Map | core/arana/decision.py:29 | `[f(x) for x in s]`, element by element |
| Sorting.MapPermutation | core/arana/decision.py:29-31 | mapping a permutation gives a permutation |
| KernelStages.StageNameOf | core/kernel/stages.py:11-16 | `StageName(value)` finds the member with that value, and none exists for any other value |
| KernelStages.StageNameValues | core/kernel/stages.py:11-16 | the enum has exactly the values stage_a, stage_b, stage_c, and each value identifies its member |
| KernelErrors.StageError.Message | core/kernel/errors.py:10-43 | the message is the kind prefix, the stage name, `' failed: '` and the reason |
| KernelErrors.MessageKindsDistinct | core/kernel/errors.py:10-43 | a blocking failure's message is never a non-blocking one's |
| KernelErrors.MessageDeterminesReason | core/kernel/errors.py:21-25 | for one kind and one stage, the message determines the reason |
| KernelPipeline.AllResults | core/kernel/pipeline.py:51-53 | what each stage returns on the context, one result per stage, in order |
| KernelPipeline.FirstHalt | core/kernel/pipeline.py:59 | the first result with ok false and blocking true, if any, and no earlier one halts |
| KernelPipeline.Run | core/kernel/pipeline.py:34-69 | the run's results are the stages' results on the context, in stage order: all of them and none halting when it completes; when it halts, a non-empty prefix whose last result alone halts |
| KernelPipeline.Pipeline.constructor | core/kernel/pipeline.py:25-32 | a new pipeline holds the stages and no results |
| KernelPipeline.Pipeline.Execute | core/kernel/pipeline.py:34-69 | the run equals the specification Run (so it is deterministic); `results` is reset and ends as the recorded results |
| KernelPipeline.CompletedRunsEveryStage | core/kernel/pipeline.py:51-69 | without a halt, every stage's result is recorded, in stage order |
| KernelPipeline.CompletesIffNoBlockingFailure | core/kernel/pipeline.py:59 | a run completes exactly when no result is a blocking failure |
| KernelPipeline.HaltedAtFirstBlockingFailure | core/kernel/pipeline.py:56-67 | a halted run recorded exactly the prefix up to and including the first blocking failure; the error names that stage, has the fixed reason, and carries its error and output |
| KernelPipeline.DeclaredBlockingIgnored | core/kernel/pipeline.py:59 | the halt reads the result's blocking flag: changing the declared flags changes nothing |
| KernelPipeline.HaltMessage | core/kernel/pipeline.py:60-62 | the halting error's message starts with `Blocking stage '` and ends with `blocking=True` |
| KernelPipeline.BlockingFailureStops | tests/integration/test_pipeline.py:110-144 | A succeeds, B fails blocking: the run halts at stage_b with two results, A ok and B not |
| KernelPipeline.NonBlockingFailureContinues | tests/integration/test_pipeline.py:188-217 | a non-blocking failure does not halt: three results |
| KernelPipeline.BlockingSuccessContinues | tests/integration/test_pipeline.py:77-107 | an ok result marked blocking does not halt: three results |
| AranaAggregator.CategoryOf | core/arana/aggregator.py:22-32 | each verdict's list, by `result == "FAIL"` and `severity == "error"`; anything but FAIL is a pass |
| AranaAggregator.OfCategory | core/arana/aggregator.py:21-32 | a category's list holds only input verdicts of that category |
| AranaAggregator.AggregateVerdicts | core/arana/aggregator.py:7-34 | the loop's four lists are exactly the four category filters of the input |
| AranaAggregator.OfCategoryCount | core/arana/aggregator.py:21-32 | a list holds every copy of its category's verdicts and nothing else |
| AranaAggregator.PartitionMultiset | core/arana/aggregator.py:21-32 | the four lists together are the input: every verdict lands in exactly one |
| AranaAggregator.PartitionLengths | core/arana/aggregator.py:21-32 | the lengths of the four lists sum to the input's |
| AranaAggregator.MembershipIff | core/arana/aggregator.py:22-32 | a verdict is in a list exactly when it is an input verdict of that category |
| AranaAggregator.OfCategoryConcat | core/arana/aggregator.py:21-32 | each list keeps the input's relative order |
| AranaAggregator.OfCategoryPermutation | core/arana/aggregator.py:21-32 | reordering the input reorders each list without changing its contents |
| AranaPrecedence.ApplyPrecedence | core/arana/precedence.py:6-20 | FAIL exactly when the list is non-empty, PASS exactly when empty, nothing else |
| AranaPrecedence.OnlyEmptinessMatters | core/arana/precedence.py:18 | only the list's emptiness matters |
| AranaDecision.SortedIds | core/arana/decision.py:29-31 | the sorted list of the verdicts' ids |
| AranaDecision.SortedIdsPermutation | core/arana/decision.py:29-31 | permuted verdict lists give the same sorted id list |
| AranaDecision.DecisionDict | core/arana/decision.py:33-38 | the hashed dict: status and the three id lists, under their keys |
| AranaDecision.Decision.Content | core/arana/decision.py:26-38 | the decision's hashed dict, over the sorted ids of its three lists |
| AranaDecision.Decision.Hash | core/arana/decision.py:39 | decision_hash is 64 lower-case hex digits, even with every list empty |
| AranaDecision.HashPermutationInvariant | core/arana/decision.py:29-31 | permuting any of the three lists leaves decision_hash unchanged |
| AranaDecision.StatusReachesDigestInput | core/arana/decision.py:33-39 | decisions of different status are hashed over different bytes |
| AranaStage.Decide | core/arana/stage.py:21-49 | the stage result: blocking, all verdicts kept, status PASS or FAIL, ok exactly when PASS |
| AranaStage.Execute | core/arana/stage.py:21-49 | blocking is always true; all_verdicts is the input; status FAIL exactly when some verdict is an error-severity FAIL; ok exactly when the status is PASS |
| AranaStage.FailIffBlockingFailure | core/arana/stage.py:31-48 | the decision fails exactly when a blocking failure exists, and passes exactly when none does |
| AranaStage.EmptyInputPasses | tests/integration/test_arana_decision_stage.py:204-214 | no verdicts: the status is PASS and the stage is ok |
| AranaStage.OrderIndependent | tests/integration/test_arana_decision_stage.py:128-154 | permuted inputs give the same status, ok flag and decision hash |
| Apa7Rules.RuleCode.Text | core/amanecer/apa7_layout/rules.py:20-88 | every rule code is written with the `APA7-` prefix |
| Apa7Rules.TextInjective | core/amanecer/apa7_layout/rules.py:20-88 | different rule codes are different strings |
| Apa7Rules.FontNames | core/amanecer/apa7_layout/validator.py:111 | `list(VALID_FONTS.keys())`, in insertion order |
| Apa7Rules.FontNamesListed | core/amanecer/apa7_layout/rules.py:92-97 | the valid fonts are Times New Roman, Calibri, Arial, Georgia |
| Apa7Rules.RequiredSize | core/amanecer/apa7_layout/rules.py:92-97 | `VALID_FONTS.get(name)`: a size exactly for the valid fonts, the one the table lists |
| Apa7Rules.SizeRuleCode | core/amanecer/apa7_layout/validator.py:132-139 | a size rule code exactly for the valid fonts |
| Apa7Rules.FindRule | core/amanecer/apa7_layout/validator.py:104 | `next(...)` over the rules: the first rule with the code, or None exactly when none has it |
| Apa7Rules.TableShape | core/amanecer/apa7_layout/rules.py:20-88 | eleven rules, pairwise distinct codes, all blocking |
| Apa7Rules.TableSeverities | core/amanecer/apa7_layout/rules.py:20-88 | every rule is critical except page numbering, which is error |
| Apa7Rules.RuleIndex | core/amanecer/apa7_layout/rules.py:20-88 | every code has a rule in the table |
| Apa7Rules.TableRule | core/amanecer/apa7_layout/validator.py:104 | the table rule carrying the code |
| Apa7Rules.TableRuleIsFound | core/amanecer/apa7_layout/validator.py:227-252 | the search for any code succeeds (never StopIteration) and finds the table's rule for it |
| Apa7Rules.FindRuleInTable | core/amanecer/apa7_layout/rules.py:20-88 | looking up a table rule's code finds that very rule |
| Apa7Rules.FontSizes | core/amanecer/apa7_layout/rules.py:92-97 | Times New Roman needs 12.0 points; Calibri, Arial and Georgia 11.0 |
| Apa7Rules.EveryFontHasSizeRule | core/amanecer/apa7_layout/validator.py:132-141 | each valid font has a size and its own size rule code |
| Apa7Extractor.FactName.Key | core/amanecer/apa7_layout/extractor.py:39-46 | each fact is read under a non-empty key, its field name |
| Apa7Extractor.TypeName | core/amanecer/apa7_layout/extractor.py:34-35 | Python's type name of a value, used in exception texts |
| Apa7Extractor.GetOr | core/amanecer/apa7_layout/extractor.py:34-35 | `d.get(key, default)`: AttributeError exactly when d is not a dict; the default when the key is absent; else the stored value |
| Apa7Extractor.Field | core/amanecer/apa7_layout/extractor.py:39-46 | `layout.get(name)`: the stored value, or None |
| Apa7Extractor.FactsOf | core/amanecer/apa7_layout/extractor.py:38-47 | the `LayoutFacts(...)` construction: each fact is the layout's value under its own name |
| Apa7Extractor.LayoutOf | core/amanecer/apa7_layout/extractor.py:34-35 | a non-dict context, or a non-dict metadata or layout, raises AttributeError with Python's text; a missing metadata or layout key gives an empty layout; otherwise the layout dict's members |
| Apa7Extractor.ExtractLayoutFacts | core/amanecer/apa7_layout/extractor.py:24-47 | extraction fails exactly when reading the layout raises, and otherwise copies the layout's values |
| Apa7Extractor.TestContext | tests/integration/test_apa7_layout_stage.py:25-37 | the tests' context: a dict holding the layout under metadata |
| Apa7Extractor.ExtractTestContext | core/amanecer/apa7_layout/extractor.py:34-47 | from the tests' context, extraction succeeds and reads every fact from the layout |
| Apa7Extractor.ExtractFromMetadata | core/amanecer/apa7_layout/extractor.py:34-47 | for any context whose metadata dict holds a layout dict, each fact is that layout's value under the fact's name; a non-dict layout raises |
| Apa7Extractor.NonDictMetadataFails | core/amanecer/apa7_layout/extractor.py:34-35 | metadata that is not a dict raises AttributeError with Python's text |
| Apa7Extractor.ValueCopied | core/amanecer/apa7_layout/extractor.py:37-47 | a layout value is copied unchanged into its fact |
| Apa7Extractor.LayoutDictOf | core/amanecer/apa7_layout/extractor.py:38-47 | a layout dict with one member per fact, under the fact names |
| Apa7Extractor.ExtractRoundTrip | core/amanecer/apa7_layout/extractor.py:38-47 | round trip: extracting from the layout dict of some facts gives back those facts |
| Apa7Extractor.FactsOfDict | core/amanecer/apa7_layout/extractor.py:38-47 | reading the eight fields of the layout dict of some facts gives back those facts |
| Apa7Extractor.MissingFieldIsNull | core/amanecer/apa7_layout/extractor.py:39-46 | a key the layout lacks gives None |
| Apa7Extractor.MissingLayoutAllNull | core/amanecer/apa7_layout/extractor.py:34-35 | no metadata, or a metadata dict without a layout key (whatever else it holds), gives all-None facts |
| Apa7Extractor.EmptyLayoutAllNull | tests/integration/test_apa7_layout_stage.py:271-276 | an empty layout dict gives all-None facts |
| Apa7Extractor.ExtraKeysIgnored | core/amanecer/apa7_layout/extractor.py:38-47 | keys other than the eight fact names change nothing wherever they stand: layouts holding the same fact members in the same order give the same facts |
| Apa7Extractor.NonDictContextFails | core/amanecer/apa7_layout/extractor.py:34 | a context that is not a dict raises AttributeError with Python's text |
| Apa7Validator.Evidence.ToDict | core/amanecer/apa7_layout/validator.py:53-59 | the evidence dict has exactly the five keys, holding the rule code string, the fact name, the expected value, the actual value and the match flag |
| Apa7Validator.Verdict.ToDict | core/amanecer/apa7_layout/validator.py:44-62 | the verdict dict has exactly the six distinct keys in to_dict's order, holding the five fields and the evidence dicts |
| Apa7Validator.RuleVerdict | core/amanecer/apa7_layout/validator.py:81-96 | a verdict copies its rule's code, description, severity and blocking, has one evidence entry, and is PASS exactly when that entry matched |
| Apa7Validator.CheckMargin | core/amanecer/apa7_layout/validator.py:65-69 | None fails; a number, or a bool as 0 or 1, passes exactly within 0.01 of 1.0; a string, list or dict raises the TypeError of `value - required` |
| Apa7Validator.EvaluateMarginRule | core/amanecer/apa7_layout/validator.py:72-96 | raises exactly when CheckMargin raises; otherwise a verdict from the rule, expecting 1.0, recording the fact, PASS exactly when the margin checks |
| Apa7Validator.MarginVerdicts | core/amanecer/apa7_layout/validator.py:234-237 | the loop over the first n margin rules yields n verdicts when it raises nothing |
| Apa7Validator.MarginVerdictsValues | core/amanecer/apa7_layout/validator.py:234-237 | without an exception, the i-th margin verdict is what the i-th margin rule evaluates to |
| Apa7Validator.MarginVerdictsOk | core/amanecer/apa7_layout/validator.py:234-237 | the loop raises nothing when none of its margin rules raises |
| Apa7Validator.MarginVerdictsErr | core/amanecer/apa7_layout/validator.py:234-237 | the loop raises when any of its margin rules raises |
| Apa7Validator.MarginVerdictsExtend | core/amanecer/apa7_layout/validator.py:234-237 | a margin rule that raises nothing appends its verdict to the list |
| Apa7Validator.MarginErrorPersists | core/amanecer/apa7_layout/validator.py:234-237 | the first margin that raises aborts the loop with its error |
| Apa7Validator.FontIsValid | core/amanecer/apa7_layout/validator.py:106 | `font_name in VALID_FONTS`: a list or dict raises "unhashable type"; true exactly for a valid font name |
| Apa7Validator.FontValidVerdict | core/amanecer/apa7_layout/validator.py:104-123 | the FONT-VALID verdict from its table rule, expecting the font list, recording the font name |
| Apa7Validator.FontSizeVerdict | core/amanecer/apa7_layout/validator.py:126-158 | the size verdict of a valid font from its table rule: expects the font's size, records the actual, PASS exactly on that number |
| Apa7Validator.FontVerdicts | core/amanecer/apa7_layout/validator.py:99-160 | font rules raise exactly when the font name is unhashable; two verdicts exactly when the font is valid, else one |
| Apa7Validator.EvaluateFontRules | core/amanecer/apa7_layout/validator.py:99-160 | the method returns FontVerdicts |
| Apa7Validator.EvaluateLineSpacingRule | core/amanecer/apa7_layout/validator.py:163-183 | a verdict from the rule, expecting 2.0, PASS exactly when the spacing is the number 2.0 (None fails) |
| Apa7Validator.EvaluatePageNumberingRule | core/amanecer/apa7_layout/validator.py:186-206 | a verdict from the rule, expecting True, PASS exactly when the value is the boolean true (`is True`) |
| Apa7Validator.ClosingVerdicts | core/amanecer/apa7_layout/validator.py:243-253 | LINE-SPACING then PAGE-NUMBERING end the list |
| Apa7Validator.LayoutVerdicts | core/amanecer/apa7_layout/validator.py:209-255 | the specification of validate_apa7_layout: margins, fonts, line spacing, page numbering, or the first exception; it raises exactly when a margin rule or the font check raises |
| Apa7Validator.LayoutVerdictsOk | core/amanecer/apa7_layout/validator.py:234-255 | without an exception the list is margins, fonts, then the closing verdicts |
| Apa7Validator.LayoutMarginError | core/amanecer/apa7_layout/validator.py:234-237 | an exception in the margin loop propagates out of validation |
| Apa7Validator.LayoutFontError | core/amanecer/apa7_layout/validator.py:240-241 | an exception from the font rules, after the margins, propagates out of validation |
| Apa7Validator.ValidateApa7Layout | core/amanecer/apa7_layout/validator.py:209-255 | the loop and appends return LayoutVerdicts: the verdicts, or the first exception |
| Apa7Validator.ExpectedCodes | core/amanecer/apa7_layout/validator.py:224-255 | the code order: four margins, FONT-VALID, the font's size rule when valid, LINE-SPACING, PAGE-NUMBERING; 8 codes or 7 |
| Apa7Validator.MarginEntries | core/amanecer/apa7_layout/validator.py:227-237 | each margin verdict has its code and table rule, records its fact, and passes exactly when the margin checks |
| Apa7Validator.MarginVerdictsAt | core/amanecer/apa7_layout/validator.py:227-237 | the first four verdicts of the list are the margins in order, each recording its fact and passing exactly when it checks |
| Apa7Validator.VerdictOrder | core/amanecer/apa7_layout/validator.py:224-255 | the verdicts come in ExpectedCodes order: 8 when the font is valid, 7 otherwise |
| Apa7Validator.VerdictsFromTable | core/amanecer/apa7_layout/validator.py:72-206 | every verdict copies the table rule of its code, has one evidence entry, and is PASS exactly when it matched, otherwise FAIL |
| Apa7Validator.TechnicalErrors | core/amanecer/apa7_layout/validator.py:209-255 | validation raises exactly when a margin is a string, list or dict or the font name is a list or dict |
| Apa7Validator.FirstMarginErrorReported | core/amanecer/apa7_layout/validator.py:234-240 | the first raising margin's error is reported, before any font problem |
| Apa7Validator.CompliantRaisesNothing | core/amanecer/apa7_layout/validator.py:209-255 | a compliant layout raises nothing |
| Apa7Validator.PassedIsCompliant | core/amanecer/apa7_layout/validator.py:209-255 | if every verdict passes, the layout is compliant |
| Apa7Validator.CompliantPasses | core/amanecer/apa7_layout/validator.py:209-255 | a compliant layout passes every verdict |
| Apa7Validator.AllPassIffCompliant | core/amanecer/apa7_layout/validator.py:209-255 | compliant facts validate without error; on success, all verdicts pass exactly when the facts are compliant |
| Apa7Validator.FontValidVerdictAt | core/amanecer/apa7_layout/validator.py:104-126 | the fifth verdict is FONT-VALID, passing exactly for a valid font; 8 verdicts then, 7 otherwise |
| Apa7Validator.FontSizeVerdictAt | core/amanecer/apa7_layout/validator.py:126-158 | for a valid font the sixth verdict is its size rule, expecting the required size, passing exactly on it |
| Apa7Validator.ClosingVerdictsAt | core/amanecer/apa7_layout/validator.py:243-253 | the last two verdicts are LINE-SPACING (passes exactly at 2.0) and PAGE-NUMBERING (passes exactly on True) |
| Apa7Validator.ValidFontSizeVerdict | core/amanecer/apa7_layout/validator.py:126-158 | with non-raising margins and a valid font, the sixth verdict fails exactly when the size is wrong |
| Apa7Validator.ValidFontClosingVerdicts | core/amanecer/apa7_layout/validator.py:243-255 | with non-raising margins and a valid font, verdicts 7 and 8 are spacing and numbering with their pass conditions |
| Apa7Validator.WrongEverywhereFailsEveryRule | core/amanecer/apa7_layout/validator.py:209-255 | facts wrong everywhere, without raising, give seven verdicts, all FAIL |
| Apa7Validator.NoTechnicalError | core/amanecer/apa7_layout/validator.py:65-106 | margins that are None, bools or numbers and a hashable font name never raise |
| Apa7Validator.FirstVerdictIsTopMargin | core/amanecer/apa7_layout/validator.py:227-237 | the first verdict is MARGIN-TOP, blocking, passing exactly when the top margin checks |
| Apa7Validator.ComputeVerdictHash | core/amanecer/apa7_layout/validator.py:258-265 | compute_verdict_hash returns 64 lower-case hex digits |
| Apa7Validator.VerdictTextSensitive | core/amanecer/apa7_layout/validator.py:263-264 | verdicts with the same evidence that differ in code, description, result, severity or blocking flag have different dict texts |
| Apa7Validator.VerdictHashSensitive | core/amanecer/apa7_layout/validator.py:258-265 | changing the code, description, result, severity or blocking flag of one verdict of the list changes the bytes the verdict hash is taken over |
| Apa7Stage.CountResult | core/amanecer/apa7_layout/stage.py:55-56 | the count is all of the list exactly when every result is that one, and 0 exactly when none is |
| Apa7Stage.CountsAddUp | core/amanecer/apa7_layout/stage.py:54-56 | passed plus failed is the total |
| Apa7Stage.TechnicalError | core/amanecer/apa7_layout/stage.py:60-68 | the except branch: not ok, blocking, empty output and metadata, and the error is the fixed prefix followed by `str(e)` |
| Apa7Stage.Report | core/amanecer/apa7_layout/stage.py:38-58 | blocking and no error; the output is each verdict's dict in the validator's order; the hash is compute_verdict_hash of the verdicts; total is the number of verdicts, passed and failed are the PASS and FAIL counts and add up to it; ok exactly when every verdict passed, exactly when nothing failed |
| Apa7Stage.EvaluateFacts | core/amanecer/apa7_layout/stage.py:36-68 | blocking; an error exactly when validation raises, then the prefix and the exception's text; otherwise the report of the validator's verdicts (their dicts as output, their hash and counts as metadata); ok exactly when the facts are compliant |
| Apa7Stage.Apa7LayoutStage | core/amanecer/apa7_layout/stage.py:13-68 | blocking always; ok exactly when extraction succeeds and the facts are compliant; on any exception not ok, empty output, empty metadata, and the error is the technical-error prefix followed by the text of the extraction or validation exception; otherwise the report of the extracted facts' verdicts (their dicts as output, their hash and counts as metadata) |
| Apa7Stage.StageOutput | core/amanecer/apa7_layout/stage.py:44-50 | when validation raises nothing, the stage's output is the dict of each verdict, in the validator's order |
| Apa7Stage.FailedVerdictDict | core/amanecer/apa7_layout/validator.py:44-62 | a FAIL verdict's dict carries its rule code string and "FAIL", and `blocking` true when the verdict is blocking |
| Apa7Stage.PassedVerdictDict | core/amanecer/apa7_layout/validator.py:44-62 | a PASS verdict's dict carries "PASS" |
| Apa7Stage.MismatchDict | core/amanecer/apa7_layout/validator.py:44-62 | a verdict whose first evidence did not match carries that evidence's expected and actual values and `match` false in its dict |
| Apa7Stage.CompliantOutputPasses | core/amanecer/apa7_layout/stage.py:39-50 | for compliant facts every output dict reports PASS |
| Apa7Stage.StageOnFacts | core/amanecer/apa7_layout/stage.py:31-36 | on a context built from the facts, the stage evaluates those facts |
| Apa7Stage.StageOfExtracted | core/amanecer/apa7_layout/stage.py:31-36 | when extraction succeeds, the stage is the evaluation of the extracted facts |
| Apa7Stage.FailedVerdictFailsStage | core/amanecer/apa7_layout/stage.py:39-56 | one failed verdict fails the stage, without an error, with a failure counted |
| Apa7Stage.EveryVerdictFailedCounted | core/amanecer/apa7_layout/stage.py:39-57 | when every verdict fails, all are counted as failures and none as passed |
| Apa7Stage.CorrectDocumentPasses | tests/integration/test_apa7_layout_stage.py:53-80 | the compliant document is ok with no error, 8 rules, 8 passed and 0 failed |
| Apa7Stage.CorrectDocumentOutput | tests/integration/test_apa7_layout_stage.py:72-75 | every output dict of the compliant document reports PASS |
| Apa7Stage.CalibriElevenPasses | tests/integration/test_apa7_layout_stage.py:217-232 | Calibri at 11 points is ok |
| Apa7Stage.MarginWithinTolerancePasses | tests/integration/test_apa7_layout_stage.py:235-250 | margins of 1.005 and 0.995 are ok |
| Apa7Stage.WrongTopMarginFails | tests/integration/test_apa7_layout_stage.py:25-50 | a top margin of 0.75 (or 1.02, the case at lines 253-268) is not ok, blocking and error-free; MARGIN-TOP fails and is blocking |
| Apa7Stage.WrongTopMarginOutput | tests/integration/test_apa7_layout_stage.py:44-50 | the first output dict is APA7-MARGIN-TOP with result FAIL and blocking true |
| Apa7Stage.WrongFontSizeFails | tests/integration/test_apa7_layout_stage.py:83-112 | Times New Roman at 11 is not ok, without a technical error |
| Apa7Stage.WrongFontSizeEvidence | tests/integration/test_apa7_layout_stage.py:83-112 | its sixth verdict is FONT-SIZE-TNR FAIL, expecting 12.0, found 11.0, not matched |
| Apa7Stage.WrongFontSizeOutput | tests/integration/test_apa7_layout_stage.py:101-112 | the sixth output dict is APA7-FONT-SIZE-TNR with result FAIL, and its first evidence dict has expected_value 12.0, actual_value 11.0 and match false |
| Apa7Stage.InvalidFontFails | tests/integration/test_apa7_layout_stage.py:145-166 | Comic Sans is not ok, with no error; seven verdicts, FONT-VALID fails |
| Apa7Stage.OneAndAHalfSpacingFails | tests/integration/test_apa7_layout_stage.py:169-190 | spacing 1.5 is not ok; LINE-SPACING fails |
| Apa7Stage.MissingPageNumbersFail | tests/integration/test_apa7_layout_stage.py:193-214 | no page numbers is not ok; PAGE-NUMBERING fails |
| Apa7Stage.NoFactsFailEveryRule | tests/integration/test_apa7_layout_stage.py:271-282 | all-None facts are not ok, with no error; 7 rules, 7 failed |
| Apa7Stage.EmptyLayoutFailsEveryRule | tests/integration/test_apa7_layout_stage.py:271-282 | an empty layout is not ok and not a technical error; 7 rules, all failed |

## Left out

- Hashes.Sha256Hex: the body is a stand-in fold rendered as 64 hex digits, not FIPS 180-4 SHA-256. Only the digest's shape is stated. Distinctness is proved for the bytes fed to the digest, never for digests, because SHA-256 collision resistance cannot be proved.
- CanonicalJson.NumberText: numbers are exact reals, written as a plain decimal with at most 17 fraction digits. Python's float `repr` (shortest round-trip digits, exponents, `1.0` against `1`) is not modelled, and neither are NaN and infinities. The number-sensitivity of hashes is therefore left out; the sensitivity lemmas are stated for strings, booleans and nulls.
- Apa7Validator.CheckMargin: the tolerance test uses exact reals. At the boundary binary floats differ: `abs(0.99 - 1.0)` is slightly above 0.01, so Python fails 0.99 and the model passes it. The tests use 1.005, 0.995, 1.02 and 0.75, where the two agree.
- The SHA-256 inside compute_verdict_hash is modelled as the same stand-in digest.
- Apa7Validator.VerdictHashSensitive: a change to a verdict's evidence list is not covered. The evidence dicts hold numbers, whose text is not modelled exactly (see CanonicalJson.NumberText), so distinct evidence cannot be shown to serialise differently.
- Python's built-in `hash()` in `__hash__` is process-salted and is not modelled. Equality is modelled as equality of ids (`Equals` on each record). Comparing with an object of another class (`NotImplemented`) cannot be written, because `Equals` takes the same record type.
- `__repr__` is cosmetic and is not modelled.
- Frozen-dataclass immutability needs no modelling: records are Dafny datatypes and cannot be changed. Ids are member functions of the content, so no caller can supply them.
- `init=False` needs no modelling, for the same reason.
- KernelPipeline.Pipeline: the `results` property returns `self._results.copy()`. A Dafny sequence is an immutable value, so reading the field already gives a copy, and no separate member models the property.
- Exceptions raised inside stage functions are not modelled: stage functions are total functions of the context.
- `NonBlockingStageError` is never raised by the pipeline. Only its payload and message are modelled.
- core/kernel/context.py is not part of this model. `PipelineContext` is the type parameter `C`, so its `Mapping` check is vacuous.
- The `contracts/*.py` protocols hold declarations only, and the `__init__.py` files only re-export. Neither is modelled.
- tests/architecture_guards does file I/O and AST scanning and is not modelled.
- Apa7Validator.EvaluateFontRules: `_evaluate_font_rules` takes a `rules` argument. Its only caller passes `APA7_LAYOUT_RULES`, so the model fixes the argument to the table.
- The StopIteration of `next(...)` cannot happen, because every code searched for is in the table (TableRuleIsFound). The model therefore has no path for it.
- Rule codes are an enumeration whose `Text()` is the code string. Verdicts hold the enumeration, and their dicts hold the string.
- JSON numbers are Python floats in the model. `TypeName` calls every number `float`, so an integer fact's type name in an exception text would read `float` rather than `int`.
- Values that are not JSON (tuples, sets, objects) cannot occur in the model's layout facts.
- Strings are sequences of Unicode scalar values, because a Dafny `char` excludes the surrogate code points U+D800 to U+DFFF. A Python `str` holding a lone surrogate, which `json.dumps` writes as `"\ud800"` and `hash_json` accepts, cannot be represented. Its escaping is therefore not modelled.
- Apa7Stage.Apa7LayoutStage: the `except Exception` branch is taken for the exceptions the model can raise. Those are an AttributeError from a non-dict context, metadata or layout, and a TypeError from a string, list or dict margin or an unhashable font name. Other exceptions from a Python runtime, such as MemoryError, are not modelled.
- A verdict's result is the enumeration `Outcome` (`Pass`, `Fail`), whose `Text()` is the string "PASS" or "FAIL". The validator never writes any other string, so the model has no third value.
- The interfaces between the modules are not joined:
  - the APA7 stage takes and returns dicts, not the kernel's context and StageResult;
  - the Araña stage defines its own result type;
  - layout severities are "critical", which the Araña aggregator would count as non-blocking.
