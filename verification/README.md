# Code Clearance, verified

Code Clearance turns the outputs of scanners into a verdict on a repository: normalise, deduplicate,
correlate, evaluate against a policy, and check the report against a schema. This project is a Dafny
model of that pipeline with proofs of what it is relied on for. `dafny verify dfyconfig.toml` checks
all of it. Nothing here executes the original program.

## Layout

| part | files |
|---|---|
| options, strings, orders, sorting, graphs | `Options`, `Text`, `Sorting`, `Graph` |
| evidence model and relatedness | `Evidence`, `Related`, `RelatedExactly` |
| correlation engine | `Deduplicate`, `DeduplicateLedger`, `DeduplicateSeverity`, `UnionFind`, `Linking`, `Merge`, `Components`, `Correlate`, `CorrelateOrder`, `RunOrder` |
| policy | `Policy`, `PolicyOutcome`, `PolicyOrder`, `PolicyShuffle`, `PolicyFindings` |
| correlation and policy together | `Report`, `Pipeline`, `Traceability`, `LineShift`, `LogShift` |
| parallel runner and scan | `Parallel`, `Runner`, `Scan` |
| schema validator | `Schema`, `ReportSchema` |
| SARIF in and out | `Fingerprints`, `Sarif`, `NormalizeLedger`, `SarifExport`, `SarifRoundTrip`, `SarifFields`, `SarifShift`, `SarifRepeats` |
| artifact session, command lines | `Store`, `Tokenizer` |

Code that changes things step by step is a method with the source's loops, proved equal to a function
of its inputs or of the old state; the properties are lemmas about that function. Library calls and text
heuristics that are outside the model are function-valued parameters (`Evidence.Env`, `Sarif.Lib`,
`Schema.Context`), each given only what its counterpart reads. Pointers are pairs of an address and a
value, because locations are compared by pointer. `sort.Slice` is any function that answers a list of
keys with a permutation arranging them, so nothing relies on its being stable. Iterating over a Go map
is picking any remaining key. Integers are unbounded. Lemmas switch automatic induction off; every
induction is written out.

## What turned out to be false, and when it holds

* Relatedness is not symmetric, because the lockfile test reads only the first path
  (`Related.AsymmetryHappens`). It is symmetric for a pair exactly when `LockfileOnOneSide` does not hold
  of it (`Related.RelatedSymmetricExactly`), and that is exactly when swapping two single-record runs
  leaves the number of correlated findings alone (`CorrelateOrder.SwapKeepsCountExactly`,
  `CorrelateOrder.SwapCanSplit`). Runs of any size correlate to the same findings in every order exactly
  when, in every order, each such pair of records of different runs is in one component, its relatedness
  aside (`RunOrder.RunOrderFreeExactly`).
* Evaluation is said to be independent of the order of runs and findings
  (`internal/policy/eval.go:25-26`). Two runs of one tool and command can turn an incomplete verdict into
  another by being swapped (`PolicyOrder.RunOrderMattersOnEqualKeys`), and two findings of one id a blocked
  one (`PolicyOrder.FindingOrderCanMatter`). Over every order of the runs, of the report's findings and of
  the findings inside each run, the outcome, the blocking findings and the residual risks are the same
  exactly when some required adapter fails whichever run counts for it; or else no required adapter's runs of
  its greatest command disagree on having completed, and the tree is dirty where it may not be, or the
  findings that an id could come to be judged by all put the same into the verdict
  (`PolicyShuffle.DecisionOrderFreeExactly`). These are the report's findings of the id or, where the report
  lists none, those in the runs of least tool and command that hold it.
* Deduplication compares no severities, so a finding can hide a more severe one that it absorbs: the first
  finding of a run whose findings share an id hides all others (`DeduplicateSeverity.OneIDKeepsFirstExactly`,
  `Pipeline.DeduplicationCanHideCritical`). A run listed by falling severity loses nothing
  (`DeduplicateSeverity.FallingRanksAreKept`). Every order of a run loses nothing exactly when no finding
  would absorb in turn some others of which the last outranks it
  (`DeduplicateSeverity.RanksKeptInEveryOrderExactly`).
* The report schema demands outcome "incomplete" of a report with unavailable checks; the evaluator
  clears one whose only gap is optional. The reports that meet the demand are characterised exactly
  (`ReportSchema.VerdictMeetsConditionalExactly`, `ReportSchema.OptionalGapBreaksConditional`).
* The comment at `internal/app/scan.go:288-291` says a derived requirement comes from the adapters asked
  for; the code derives it from the runs that were reported, so an adapter that reports nothing is not
  missed (`Scan.SilentAdapterIsCleared`). The two requirements agree on whether the verdict is incomplete
  exactly when an adapter both asked for and reported fails, or some reported one that was not asked for
  fails just when some one asked for reported nothing (`Scan.DerivedAgreesExactly`).
* Normalize is said to drop results that are byte-identical (`internal/normalize/sarif.go:172-174`); it
  drops every later result of one fingerprint, so a second occurrence of the same content elsewhere in the
  file goes, with its lines (`SarifRepeats.SecondOccurrenceIsLost`). It drops nothing but copies exactly
  when results of one rule, path and content anchor agree, places compared by value, on everything but
  their index (`SarifRepeats.DropsOnlyCopiesExactly`).
* The validator takes whole numbers beyond 64 bits for no integers (`Schema.LargeIntegerDiffers`), and these
  are the only values at which it and JSON Schema draft 2020-12 differ on an integer schema
  (`Schema.IntegerReadAlikeExactly`). It passes over keywords beside a $ref, takes keywords for objects and
  arrays to imply a type, and accepts anything for a type it does not know; which schema nodes the two read
  alike is told exactly (`Schema.ReadAlikeExactly`, `Schema.ReadAlikeByShape`, `Schema.RefReadAlikeExactly`).
* A saved artifact is kept apart from other saves exactly when its path is no other's temporary file
  (`Store.DisturbanceExactly`, `Store.CollisionHarms`); formats other than "tmp" and "….tmp" ensure that
  (`Store.FormatsKeepApart`). Two formats give files of different names, whatever the tools, exactly when
  neither is the end of the other after a dot (`Store.FormatsTellExactly`, `Store.TwoKeysOnePath`).
* A SARIF location comes back from an export exactly when its hash is its snippet's, none without one, and
  it has a start line or a snippet, or has no place at all (`SarifRoundTrip.LocationRoundTripExactly`,
  `SarifRoundTrip.LocationsComeBackExactly`).
* A quoted argument comes back from the tokenizer exactly when it is not empty and does not hold both quote
  characters (`Tokenizer.ArgumentReturnsExactly`).

## Model

| member | source | states |
|---|---|---|
| Related.RelatedSymmetricExactly | internal/correlate/correlate.go:138-224 | the two orders of a pair are answered alike exactly when it is not a pair of different files of one base name, one of them a lockfile path, related by shared vulnerability ids and nothing else |
| Related.SamePathSymmetric | internal/correlate/correlate.go:148-157 | findings on one primary path are answered alike in both orders |
| Related.LinesOverlapExactly | internal/correlate/correlate.go:115-135 | any two regions overlap exactly when no line lies more than two past the end of one and not past the start of the other; for regions that do not end before they start, exactly when some line of one is within two of some line of the other |
| Related.AsymmetryHappens | internal/correlate/correlate.go:155-157 | one advisory found in two files of one base name, one under a directory whose name holds "lock": the findings are related one way and not the other |
| RelatedExactly.IdentityRelates | internal/correlate/correlate.go:139-145 | findings with a non-empty id or fingerprint in common are related, both ways |
| RelatedExactly.OtherFilesStayApart | internal/correlate/correlate.go:147-152 | without one, findings in files of different names are not |
| RelatedExactly.DependencyPairExactly | internal/correlate/correlate.go:154-187 | findings in files of one name that share no identity and show no code are related exactly when the first path has one of six marks, they share a vulnerability id, and no two different packages are named |
| RelatedExactly.CodePairExactly | internal/correlate/correlate.go:189-222 | findings in files of one name that share neither identity nor, in a marked file, a vulnerability are related exactly by one snippet hash, one match, texts one of which holds the other, or lines that meet where both are secrets or of one rule |
| RelatedExactly.EvidenceAddsUp | internal/correlate/correlate.go:154-222 | in files of one name each kind of evidence relates a pair by itself, whatever else the two share or do not |
| RelatedExactly.AdvisoriesOfOnePackage | internal/correlate/correlate.go:159-184 | two advisories of one package in one lockfile are two findings when they name different vulnerabilities and one when they name the same |
| Deduplicate.AddLocations | internal/correlate/correlate.go:258-272 | the nested loops add exactly the locations that share no URI and start pointers with one already there |
| Deduplicate.SweepFrom | internal/correlate/correlate.go:242-279 | one finding's pass over the later unseen ones: what it becomes, the ids it collects, what it absorbs and what it leaves, relatedness being asked of what it has become so far |
| Deduplicate.Deduplicate | internal/correlate/correlate.go:229-290 | the survivors, in order, by a pass from each position not yet absorbed; lists of at most one finding are returned as they are |
| Deduplicate.MergeLocationsExactly | internal/correlate/correlate.go:258-272 | the first list is kept, every location added is of the second and coincides in file and start pointers with none before it, and none of the second is left without one it coincides with |
| Deduplicate.RelatedPairBecomes | internal/correlate/correlate.go:242-286 | two related findings of a run become the first, with the second's places and details, and its ids among its duplicates and what it is related to |
| Deduplicate.UnrelatedPairStays | internal/correlate/correlate.go:250-252 | two unrelated ones are left as they are |
| DeduplicateLedger.NothingIsLost | internal/correlate/correlate.go:226-290 | every input position is in exactly one cluster, headed by its earliest member; survivors are in input order; each keeps its own fields, and holds every absorbed finding's trimmed ids, details and locations and no duplicate id from elsewhere; no two share a non-empty id or fingerprint |
| DeduplicateLedger.SurvivorsDiffer | internal/correlate/correlate.go:138-145 | no two survivors share a non-empty id or a non-empty fingerprint |
| DeduplicateLedger.SurvivorIsItsHead | internal/correlate/correlate.go:242-286 | a survivor's severity and id are those of the input it came from, whatever it absorbed |
| DeduplicateSeverity.FallingRanksAreKept | internal/correlate/correlate.go:229-290 | in a run listed by falling severity every input position is stood for by a survivor that ranks at least as high |
| DeduplicateSeverity.RanksKeptInEveryOrderExactly | internal/correlate/correlate.go:229-290 | for any run, every order of its findings keeps every rank exactly when there are no distinct findings of which the first would absorb the others one after the other and the last outranks it |
| DeduplicateSeverity.RelatedPairLoses | internal/correlate/correlate.go:250-279 | if a finding is related to one that outranks it, the order that lists these two first, in this order, loses the higher rank |
| DeduplicateSeverity.OneIDKeepsFirstExactly | internal/correlate/correlate.go:250-279 | a run of any length whose findings share an id leaves one survivor, with the first one's severity, and no rank is lost exactly when none outranks the first |
| UnionFind.NewForest | internal/correlate/correlate.go:327-330 | at first every record is its own representative |
| UnionFind.FindRoot | internal/correlate/correlate.go:332-339 | findRoot terminates, returns the representative, and its path compression changes no element's representative, although links need not lead to smaller positions |
| UnionFind.Union | internal/correlate/correlate.go:341-347 | the class of the second element takes the representative of the first; every other element keeps its own |
| UnionFind.RootIsWhereLinksLead | internal/correlate/correlate.go:332-339 | a representative is the node that following parent links reaches and stays at |
| UnionFind.RootUnique | internal/correlate/correlate.go:332-339 | the parent slice alone determines every representative |
| Graph.ConnectedLeast | internal/correlate/correlate.go:349-355 | being connected is contained in every equivalence that contains the pairs, so it is the least one |
| Linking.RepresentativesExact | internal/correlate/correlate.go:349-355 | joining every related pair i < j makes two records share a representative exactly when the least equivalence containing those pairs relates them |
| Correlate.LinkRelated | internal/correlate/correlate.go:326-355 | after the pair loop two records share a root exactly when they are connected through related pairs i < j |
| Correlate.TogetherExact | internal/correlate/correlate.go:326-362 | belonging to one group is the least equivalence containing the related pairs, whichever roots were chosen |
| Text.DedupeAndSortStrings | internal/correlate/correlate.go:503-515 | exactly the trimmed non-empty strings, each once, strictly ascending |
| Text.SortedArrangementUnique | internal/correlate/correlate.go:513 | strings have one sorted arrangement, so it does not matter which sort is used |
| Text.StrLessExactly | internal/correlate/correlate.go:513 | strings are ordered by their first differing characters, a prefix coming first |
| Text.TrimSpaceExactly | internal/correlate/correlate.go:507 | trimming takes off the white space at both ends, all of it and nothing else |
| Text.SpacesExactly | internal/app/commands.go:124 | which code points are white space |
| Text.SplitJoins | internal/correlate/correlate.go:387-391 | splitting at commas loses nothing: the parts joined by commas are the text again |
| Components.CollectRefs | internal/correlate/correlate.go:311-320 | all runs' records in run and list order, with their places |
| Components.GroupByRoot | internal/correlate/correlate.go:357-362 | the group of each root is that root's component, in record order, while lookups go on compressing paths |
| Components.LinkGroup | internal/correlate/correlate.go:398-412 | exactly the group's places are rewritten, each to its record linked to the group's ids |
| Components.ProcessGroups | internal/correlate/correlate.go:364-480 | whatever order the map of groups is walked in, one merged finding comes out per component and every record is linked within its own component, no group disturbing another's places |
| Merge.CollectNames | internal/correlate/correlate.go:376-395 | the group's ids and tool names |
| Merge.LinkRecord | internal/correlate/correlate.go:399-411 | a record's related and duplicate ids after linking |
| Merge.MergeGroup | internal/correlate/correlate.go:414-477 | the single finding that stands for a sorted group |
| Merge.GroupIDsExact | internal/correlate/correlate.go:376-394 | the ids of the merged finding are exactly the trimmed non-empty ids, duplicate ids and related ids of its records |
| Merge.MergedIDsExactly | internal/correlate/correlate.go:376-477 | the merged finding is related to every id that its records have or list, trimmed, and has of these all but its own as duplicates |
| Merge.ToolNamesExactly | internal/correlate/correlate.go:385-392 | a tool field names its non-empty parts between commas, trimmed |
| Merge.LinkedRecordExactly | internal/correlate/correlate.go:399-411 | a linked record's two lists hold exactly what they held, trimmed, and the group's ids but its own |
| Merge.MergedSeverityExactly | internal/correlate/correlate.go:426-462 | the merged severity is critical exactly when some record is, high exactly when none is critical and some is high, and so on through medium and low; else it is the first record's |
| Merge.MergedConfidenceExactly | internal/correlate/correlate.go:433-463 | likewise the confidence: high, medium, low, else the first record's |
| Merge.TwoToolsMerge | internal/correlate/correlate.go:414-468 | a group of two records of two tools: who found it, what confirms it and the details are those of both, under their tools' names |
| Merge.OneToolMerges | internal/correlate/correlate.go:464-468 | records of one tool keep the first one's details and rationale |
| Merge.MergedKeepsEvidence | internal/correlate/correlate.go:414-468 | no record outranks the merged severity or confidence, the severity is some record's, every record's locations have a place, its tools are named, and its details are kept under its tool's name when there is more than one tool |
| Merge.MergedInventsNothing | internal/correlate/correlate.go:414-477 | the merged finding is its first record but for the fields that are merged; it has no location that no record has, and takes the first documentation link there is |
| Correlate.CorrelateRuns | internal/correlate/correlate.go:295-491 | deduplicated runs, one finding per component sorted by id and tool, every record linked to its component |
| CorrelateOrder.ListedExactly | internal/correlate/correlate.go:364-490 | a finding is listed exactly when it is what some record's component merges into |
| CorrelateOrder.FindingIDsAscend | internal/correlate/correlate.go:482-490 | with ids present, no two correlated findings share an id and the list ascends by id |
| CorrelateOrder.FindingsByID | internal/correlate/correlate.go:482-488 | the findings are in order of id |
| CorrelateOrder.GroupByToolAndID | internal/correlate/correlate.go:368-374 | a group is in order of tool and then id, so its first record has the least tool |
| CorrelateOrder.GroupOrderIrrelevant | internal/correlate/correlate.go:366-490 | with ids present, every order of walking the groups gives the same findings |
| CorrelateOrder.LinkedUnique | internal/correlate/correlate.go:398-412 | the linked runs never depend on that order |
| CorrelateOrder.RecordOrderIrrelevant | internal/correlate/correlate.go:349-490 | two lists of the same records, with ids present and distinct tools and ids, correlate to the same findings when no pair whose relatedness depends on order changes its own |
| CorrelateOrder.RunOrderIrrelevant | internal/correlate/correlate.go:295-491 | permuting the runs leaves the correlated findings identical when ids are present, tools and ids distinct, and no two records of different runs are an order-dependent pair |
| CorrelateOrder.RunOrderCarriesRecords | internal/correlate/correlate.go:398-412 | and each run's records come out the same wherever the run stands |
| CorrelateOrder.TwoRunsCount | internal/correlate/correlate.go:349-355 | two runs of one record each give one finding if the first is related to the second, and two if not |
| CorrelateOrder.SwapKeepsCountExactly | internal/correlate/correlate.go:155-157 | swapping two such runs keeps the number of findings exactly when the pair's relatedness is the same both ways |
| CorrelateOrder.SwapCanSplit | internal/correlate/correlate.go:155-157 | two such runs that give one finding in one order and two in the other |
| RunOrder.ComponentsOrderFreeExactly | internal/correlate/correlate.go:349-362 | with distinct tools and ids, every order of the runs gives the same components exactly when in every order each order-dependent pair of records of different runs is in one component |
| RunOrder.FindingsTellComponents | internal/correlate/correlate.go:376-477 | when each id is listed by its own record alone, one list of findings comes of one set of components |
| RunOrder.RunOrderFreeExactly | internal/correlate/correlate.go:295-491 | then, for any runs, every order of them and every walk of the groups gives the same findings exactly under that condition |
| Report.CorrelateReport | internal/correlate/correlate.go:494-501 | the report's findings and runs become those of CorrelateRuns, everything else stays, and a nil report is left alone |
| Traceability.ToolsForFinding | internal/evidence/model.go:342-380 | in order and without repeats, exactly the tools named by correlated findings and by run records that mention the id |
| Traceability.SourceRecordsForFinding | internal/evidence/model.go:384-438 | sorted by tool and id, records of the runs that match the finding's ids: of every tool, id and raw index that a matching record has, exactly the first such record in run order |
| Traceability.MatchesExactly | internal/evidence/model.go:388-420 | a record matches an id exactly when it has or lists that id or one that a correlated finding of that id lists |
| Traceability.KeysTellExactly | internal/evidence/model.go:422-427 | two records have one key exactly when tool, id and raw index agree, if tools and ids hold no colon |
| Traceability.RecordsListEachOther | internal/correlate/correlate.go:398-412 | after correlation two records of a component with different trimmed ids list each other as related and as duplicate |
| Traceability.ComponentIsTraceable | internal/evidence/model.go:384-429 | every record of a correlated finding's component matches that finding's ids, so it is returned or shares its key with one that is |
| Traceability.ComponentToolsNamed | internal/evidence/model.go:342-380 | asking for a correlated finding's tools names every tool of every record of its component and of that record's run |
| Policy.IndexRuns | internal/policy/eval.go:50-89 | the last run of each tool, and the uncovered checks by status |
| Policy.CheckRequired | internal/policy/eval.go:112-135 | the required names that are missing, unavailable, or failed, by their last run |
| Policy.NameRequired | internal/policy/eval.go:138-153 | required names that an unavailable check names are added once |
| Policy.FindAcceptance | internal/policy/eval.go:245-279 | the acceptance that counts: by id, then by rule, then by the first duplicate id, then by the first related id, then the challenge status; of rules with one key the last |
| Policy.JudgeFindings | internal/policy/eval.go:239-307 | the blocking ids and the accepted risks, expiry included |
| Policy.Evaluate | internal/policy/eval.go:27-334 | the verdict, as a function of configuration and report |
| PolicyOutcome.LastRunIsGreatest | internal/policy/eval.go:43-52 | the run of a tool that counts is in the report and no run of that tool has a greater command |
| PolicyOutcome.IncompleteExactly | internal/policy/eval.go:105-177 | the verdict is incomplete exactly when a required adapter has a not-installed or unavailable run or an unavailable check, or its last run is absent or did not complete |
| PolicyOutcome.UnavailableNamesExactly | internal/policy/eval.go:123-153 | the adapters named unavailable are exactly the required ones that are |
| PolicyOutcome.OutcomeExactly | internal/policy/eval.go:155-333 | each of the four outcomes, by an if-and-only-if over requirements, then the working tree, then blocking findings, then accepted risks |
| PolicyFindings.JudgedExactly | internal/policy/eval.go:187-197 | with findings in the report, exactly the first of each id is judged |
| PolicyFindings.JudgedFromRuns | internal/policy/eval.go:198-207 | with none, a judged finding is in the first run, by tool and command, that holds its id |
| PolicyFindings.FindingJudgedExactly | internal/policy/eval.go:225-309 | at the finding stage each judged finding is passed over when rejected or fixed; a residual risk on the terms of the rule that governs it, or of its challenge status, unless that has run out against the completion time, else the start time, else a fixed one; and otherwise blocking exactly when its severity is |
| PolicyFindings.ReasonExactly | internal/policy/eval.go:137-333 | the reason lists, in order, exactly the required adapters that are unavailable; if none is, those that did not run; if none, those that failed; then come the dirty tree, the blocking findings and the number of accepted risks |
| PolicyFindings.UncoveredExactly | internal/policy/eval.go:54-103 | the uncovered checks are exactly the report's own and one for each run that was skipped, crashed, ran out of time or was not available, with its reason and exit code |
| PolicyFindings.RunsByToolAndCommand | internal/policy/eval.go:41-48 | runs are taken by tool and then by command |
| PolicyFindings.VerdictInOrder | internal/policy/eval.go:91-103 | blocking ids come in order, residual risks in order of finding, uncovered checks in order of tool |
| PolicyOutcome.BlockingExactly | internal/policy/eval.go:239-309 | the blocking ids are exactly those of judged findings that block |
| PolicyOutcome.ResidualExactly | internal/policy/eval.go:281-315 | the residual risks are exactly the items of judged findings with an unexpired acceptance |
| PolicyOutcome.AcceptanceExactly | internal/policy/eval.go:245-279 | a finding is accepted exactly when a rule names its id, its rule or a listed id, or its challenge status says so; a rule naming its own id goes first, then one naming its rule |
| PolicyOutcome.RuleForFindingExact | internal/policy/eval.go:214-223 | of several rules naming one finding the last counts |
| PolicyFindings.AcceptanceGoverned | internal/policy/eval.go:245-279 | the acceptance is the rule that governs: the last that names the finding's id, else the last that names its scanner rule, else the last that names the first duplicate that any names, else the first such related id; and where none does the challenge status stands in, without owner and good until the end of 9999 |
| PolicyFindings.SomeRuleGoverns | internal/policy/eval.go:245-270 | some rule governs every finding that a rule names by its id, its scanner rule or an id it lists |
| PolicyOutcome.BlocksExactly | internal/policy/eval.go:239-307 | a finding blocks exactly when it is not rejected or fixed, its severity blocks, and any acceptance it has is expired |
| PolicyOutcome.LedgerAddsUp | internal/policy/eval.go:187-309 | every distinct finding is dropped, blocking, accepted or harmless, and the four counts add up |
| PolicyOutcome.VerdictOverTime | internal/policy/eval.go:225-237 | as the reference time moves later blocking findings stay and accepted risks only leave; blocked stays blocked, cleared stays cleared, incomplete stays incomplete |
| PolicyOrder.RunOrderIrrelevant | internal/policy/eval.go:41-89 | permuting runs with distinct tool and command gives the identical verdict, reason and uncovered checks included |
| PolicyOrder.FindingOrderIrrelevant | internal/policy/eval.go:187-211 | permuting the findings a report lists, when its ids agree, gives the identical verdict |
| PolicyOrder.DistinctIDsAgree | internal/policy/eval.go:191-197 | findings with distinct ids do agree |
| PolicyOrder.FindingOrderIrrelevantExactly | internal/policy/eval.go:25-26 | at the finding stage every order of the findings a report lists gives one verdict exactly when those of one id put the same into it |
| PolicyOrder.FindingOrderCanMatter | internal/policy/eval.go:191-197 | one id on a critical and a low finding: the order decides |
| PolicyOrder.RunOrderMattersOnEqualKeys | internal/policy/eval.go:43-52 | one tool and command, one run completed and one crashed: swapping them changes whether the verdict is incomplete |
| PolicyShuffle.CompletionOrderFreeExactly | internal/policy/eval.go:41-52 | every order of the runs gives one answer to whether a tool completed exactly when its runs of the greatest command completed all or none |
| PolicyShuffle.IncompleteOrderFreeExactly | internal/policy/eval.go:25-26 | every order of runs and findings gives one answer to whether the verdict is incomplete exactly when some required adapter is unavailable or has no completed run of its greatest command, or those runs agree for every required adapter |
| PolicyShuffle.DecisionOrderFreeExactly | internal/policy/eval.go:25-26 | every order of the runs, of the report's findings and of the findings inside each run gives one outcome, the same blocking findings and the same residual risks exactly when a condition on the report holds: that one, together, unless a required adapter always fails, with a forbidden dirty tree or the agreement of all findings that an id could be judged by |
| PolicyShuffle.ChosenCounts | internal/policy/eval.go:43-52 | whichever greatest run is chosen for each tool, one order of the runs makes the chosen ones the runs that count, whatever the sort does with equal keys |
| PolicyShuffle.CandidateIsJudged | internal/policy/eval.go:191-211 | every finding that its id could be judged by is the judged one in some order, whether findings are listed by the report or read from the runs |
| PolicyOrder.ApplyTwice | internal/policy/eval.go:91-103 | a verdict applied and evaluated again keeps its outcome, reason, blocking findings and residual risk although the uncovered checks are merged in again |
| Report.ApplyVerdict | internal/policy/eval.go:337-345 | the report takes over the verdict's outcome, reason, residual risk and uncovered checks, and nothing else changes |
| Pipeline.DefaultUpwardClosed | internal/policy/config.go:131-135 | whatever ranks as high as a severity that the default configuration blocks is blocked too |
| Pipeline.SeverityReachesVerdict | internal/correlate/correlate.go:424-463 | with ids present and blocking severities upward closed, every deduplicated record of blocking severity is stood for by a listed finding that blocks, is an accepted risk, or was rejected or fixed |
| Pipeline.CriticalReachesVerdict | internal/correlate/correlate.go:426-462 | where critical is among the blocking severities, whatever else is, a critical record's finding is critical and blocks, is an accepted risk, or was rejected or fixed |
| Pipeline.InputReachesVerdict | internal/correlate/correlate.go:295-491 | every finding of blocking severity that went in, if the survivor in its place ranks as high, is stood for by a listed finding that ranks at least as high and blocks, is an accepted risk, or was rejected or fixed |
| Pipeline.ClearedLeavesNothing | internal/policy/eval.go:318-333 | a cleared report has no such record except under a rejected or fixed finding |
| Pipeline.ClearedLeavesNoInput | internal/policy/eval.go:318-333 | in a cleared report the finding that stands for such a finding ranks as high and was rejected or fixed |
| Pipeline.ClearedWhenFalling | internal/policy/eval.go:318-333 | so when every run is listed by falling severity, every finding of blocking severity that went in is stood for by one that was rejected or fixed |
| Pipeline.FirstSeverityIsLeft | internal/correlate/correlate.go:250-279 | of one run whose findings share an id, every correlated finding has the first one's severity |
| Pipeline.DeduplicationCanHideCritical | internal/correlate/correlate.go:250-279 | a low finding listed before a critical one of its id leaves only low findings after correlation |
| Pipeline.RunOrderReachesNoVerdict | internal/policy/eval.go:25-26 | permuting a scan's runs leaves the verdict after correlation identical when records carry ids, no two share a tool and an id, no pair of records of different runs is order-dependent and no two runs share a tool and a command; without the last, it leaves the decision alone whenever order cannot sway evaluation |
| LineShift.RelatedMoved | internal/correlate/correlate.go:115-135 | moving every start and end line by one amount changes no relatedness |
| LineShift.DeduplicatedMoved | internal/correlate/correlate.go:229-290 | deduplication commutes with the move |
| LineShift.CorrelationMoved | internal/correlate/correlate.go:295-491 | correlation commutes with the move, findings and linked runs alike |
| LineShift.VerdictMoved | internal/policy/eval.go:27-334 | the verdict is unchanged by the move, whole |
| LogShift.MovedLogsSameVerdict | internal/correlate/fingerprint.go:14-16 | moving every line of the SARIF logs a scan reads moves the lines of the correlated findings and of the linked runs and leaves the verdict unchanged, whole, however the groups are walked in either scan |
| Parallel.NextKeepsInv | internal/app/runner.go:215-260 | every step of the goroutine protocol keeps the invariant: tokens are what goroutines hold, the WaitGroup counts live ones, an unwritten slot is untouched, a written one was written once and holds what its task allows |
| Parallel.RunIsSafe | internal/app/runner.go:223-254 | in every interleaving, at every moment, tokens equal holders and never exceed the bound, so no more tasks run at once, and no slot has been written twice |
| Parallel.BoundIsReached | internal/app/runner.go:223-245 | any number of tasks up to the bound do run at once in some interleaving |
| Parallel.Progress | internal/app/runner.go:227-259 | until the call returns some step other than a cancellation is enabled |
| Parallel.RunTerminates | internal/app/runner.go:227-259 | no run of n tasks has more than 6n + 2 steps, and one that can go no further has returned |
| Parallel.RunCanFinish | internal/app/runner.go:227-260 | every run, whatever has happened in it, can be carried on without a further cancellation until the call returns |
| Parallel.ReturnIsComplete | internal/app/runner.go:227-259 | on return each goroutine is gone, each slot was written exactly once with its own task's result, panic or cancellation, and no token is out |
| Parallel.ParallelIsSequential | internal/app/runner.go:215-260 | without a cancellation every interleaving returns what running the tasks one by one with recovery returns; a panic shows only in its own slot |
| Parallel.CancelledSlotsAreOwn | internal/app/runner.go:241-254 | with a cancellation each slot holds its own task's ending or its killed result |
| Runner.StateTellsExactly | internal/app/runner.go:66-80 | a process reads as ok exactly when it exited by itself with code 0 or 1, as timed out or cancelled exactly when cut short by its deadline or otherwise, and as crashed exactly in every other case |
| Runner.ResultTellsProcess | internal/app/runner.go:118-205 | a result tells what became of its process, with its exit code if it exited and -1 if not |
| Runner.PassedMeansExited | internal/app/runner.go:210-260 | no slot of RunParallel reads as ok unless its own process exited by itself with code 0 or 1 |
| Runner.RunParallelInOrder | internal/app/runner.go:210-260 | uncancelled, each spec's result is in the spec's place |
| Runner.JobIsWellFormed | internal/app/runner.go:216-224 | with at least one spec the bound is positive, a non-positive maximum meaning all at once |
| Runner.NeverMoreThanMaximum | internal/app/runner.go:219-224 | with a positive maximum, never do more processes than that run at once |
| Runner.MaximumIsReached | internal/app/runner.go:219-224 | in some interleaving the maximum do, or all processes when there are no more or no maximum |
| Runner.SlotsAreOwn | internal/app/runner.go:226-260 | each slot holds what became of its own process, a panic included, under its own name, or after a cancellation one that reads as cancelled |
| Scan.Assemble | internal/app/scan.go:196-250 | runs and findings in task order; the adapters that ran are exactly the named tools of runs neither not-installed nor skipped, ascending |
| Scan.NeverMoreThanConfigured | internal/app/scan.go:108-112 | never do more tasks run at once than configured, or than four when nothing is |
| Scan.ConfiguredIsReached | internal/app/scan.go:108-112 | and in some interleaving as many do |
| Scan.SlotOfTask | internal/app/scan.go:146-188 | a task's slot holds what the task reported, or a crashed run under its name if it panicked, or after a cancellation an unavailable one |
| Scan.JoinedInOrder | internal/app/scan.go:196-205 | outcomes are joined in task order, and within a task as it reported them |
| Scan.DedupeStrings | internal/app/scope.go:307-317 | first occurrences only, keeping a sorted list sorted |
| Scan.PanicIsNeverAPass | internal/app/scan.go:145-194 | if the one task that would report a required tool can only panic, be it named as that tool or not, every interleaving of an uncancelled scan ends in an incomplete verdict |
| Scan.DeriveRequired | internal/app/scan.go:292-302 | for an engine other than the default one, with adapters and no declared requirement, the distinct non-empty tools of the runs; otherwise what was declared |
| Scan.DerivedAgreesExactly | internal/app/scan.go:283-304 | the verdict under the derived requirement and the one under the adapters asked for agree on incompleteness exactly when an adapter both asked for and reported fails, or a reported one not asked for fails just when one asked for reported nothing |
| Scan.AskedAndReportedExactly | internal/app/scan.go:288-291 | where only adapters asked for report, exactly when a reported one fails or all of them reported |
| Scan.SilentAdapterIsCleared | internal/app/scan.go:288-302 | an adapter asked for that reports nothing leaves a cleared verdict where requiring it gives an incomplete one |
| Schema.ValidateExact | internal/schema/validator.go:80-190 | where $ref and if/then edges are acyclic, validation terminates, and it accepts exactly the values that satisfy the schema in the one meaning of its keywords |
| Schema.AcceptsIsMeaning | internal/schema/validator.go:80-190 | there is such a meaning: the validator's own answers |
| Schema.KeyOrderIrrelevant | internal/schema/validator.go:124-134 | whatever order an object's keys are visited in, the same values are accepted |
| Schema.EnumerationExactly | internal/schema/validator.go:93-105 | an enumeration of any length turns away exactly the values written as none of its own, and has no say in what becomes of the others |
| Schema.FlatProblems | internal/schema/validator.go:107-177 | which problem a node without sub-schemas reports, in order: the wrong kind, the first missing property, an unexpected one, too few items |
| Schema.ReferenceExactly | internal/schema/validator.go:64-91 | a $ref is answered by the definition of its name in the root, and is a bad reference when there is none |
| Schema.OtherReferencesAreBad | internal/schema/validator.go:64-66 | a $ref of any other form is a bad reference |
| Schema.ReadAlikeExactly | internal/schema/validator.go:93-190 | call a node typed alike when its type is object, array, string, number or boolean, or when it has no type, no keyword that implies one and no ban on other properties; a node without $ref that is typed alike or has no enumeration is read as JSON Schema draft 2020-12 reads it, at every value and whatever its sub-schemas accept, exactly when it is typed alike and no value of its shape is written as an enumerated one without being enumerated |
| Schema.ReadAlikeByShape | internal/schema/validator.go:93-190 | any node without $ref is read alike exactly when it is with sub-schemas that accept everything |
| Schema.RefReadAlikeExactly | internal/schema/validator.go:80-91 | a node whose $ref can be followed is read alike exactly when the keywords beside it say nothing |
| Schema.AgreesWithStandard | internal/schema/validator.go:80-190 | on schemas whose nodes are all so, or integer ones, the validator accepts exactly the values that the standard does for these keywords, among values whose whole numbers fit in 64 bits |
| Schema.AgreesWithoutIntegers | internal/schema/validator.go:80-190 | and among all values, where no schema asks for an integer |
| Schema.ConformsIsStandard | internal/schema/validator.go:80-190 | the standard's equations for these keywords have a solution, so agreeing with them is not empty |
| Schema.IntegerReadAlikeExactly | internal/schema/validator.go:158-161 | an integer schema is read as the standard reads it at every value but whole numbers beyond 64 bits |
| Schema.IntegersExactly | internal/schema/validator.go:158-161 | an integer is a whole number from -9223372036854775808 up to and without 9223372036854775808 |
| Schema.LargeIntegerDiffers | internal/schema/validator.go:158-161 | 100000000000000000000 is an integer to the standard and not to the validator |
| Schema.UntypedRequiredDiffers | internal/schema/validator.go:108-115 | without a type, required rejects every value that is not an object, which the standard does not |
| ReportSchema.RuleExactly | schemas/report.schema.json:138-165 | the conditional holds of a value exactly when a non-empty uncovered.unavailable array comes with an outcome written "incomplete", if there is one |
| ReportSchema.UnavailableMeansIncomplete | schemas/report.schema.json:138-165 | every accepted report with a non-empty uncovered.unavailable has outcome "incomplete" |
| ReportSchema.OutcomeIsOneOfFour | schemas/report.schema.json:30-40 | every accepted report has one of the four outcomes |
| ReportSchema.OutcomeNamesAccepted | schemas/report.schema.json:30-40 | the outcomes that Evaluate gives go by four different names, each of which the schema accepts |
| ReportSchema.VerdictMeetsConditionalExactly | internal/policy/eval.go:137-177 | a report carrying Evaluate's verdict meets the conditional exactly when nothing is unavailable or some required adapter is not satisfied |
| ReportSchema.RequiredGapMeetsConditional | internal/policy/eval.go:137-161 | it does whenever an unavailable entry names a required adapter |
| ReportSchema.OptionalGapBreaksConditional | internal/policy/eval.go:331-333 | an optional adapter that is not installed, and nothing else, is cleared and breaks the conditional |
| Fingerprints.Fingerprint | internal/correlate/fingerprint.go:17-47 | the first sixteen characters of the digest of tool, rule, path and content anchor |
| Fingerprints.FingerprintReads | internal/correlate/fingerprint.go:14-16 | findings that agree on those inputs have one fingerprint whatever their lines, columns, severity, index and further locations |
| Fingerprints.FingerprintExactly | internal/correlate/fingerprint.go:17-47 | a fingerprint is of the tool, the rule, the first location's file or else the scope's, and the first non-empty of six contents |
| Fingerprints.TextsTellExactly | internal/correlate/fingerprint.go:44 | two digested texts are one exactly when tool, rule, file and content are, if the first three hold no zero: findings alike but for their files are digested apart |
| Sarif.RedactFinding | internal/normalize/redact.go:46-90 | every text is redacted, and a snippet's hash follows a change of it |
| Sarif.RedactedExactly | internal/normalize/redact.go:70-90 | of any finding, the texts are redacted, each location's snippet is redacted and its hash made anew when it changes or while the finding has none; the finding's hash follows its first location's, and its snippet is that location's unless nothing is left of it |
| Sarif.MatchRedactedExactly | internal/normalize/redact.go:55-68 | a match gets its redacted text, but is struck out whole where tool or rule say it is a secret, it has more than six characters and redaction leaves it alone |
| Sarif.NormalizeResult | internal/normalize/sarif.go:185-283 | one result as a redacted, fingerprinted finding |
| SarifFields.NormalizedFields | internal/normalize/sarif.go:207-239 | tool, rule, severity, redacted message and details, confidence and reviewer of a result's finding |
| SarifFields.NormalizedCarried | internal/normalize/sarif.go:185-236 | its version, scanner severity, recommendation and artifact |
| SarifFields.NormalizedRationale | internal/normalize/sarif.go:202-205 | its rationale, which names the rule if there is one |
| SarifFields.ScopeIsFirstFile | internal/normalize/sarif.go:241-272 | its scope is the first location's file that is named, or "target" |
| SarifFields.LocationsReadAs | internal/normalize/sarif.go:242-280 | its locations are the result's, in order, with their places, redacted snippets, and a hash exactly where there is a snippet |
| SarifFields.EvidenceSnippet | internal/normalize/redact.go:87-90 | its evidence shows the first location's snippet, redacted |
| SarifFields.EvidenceHash | internal/normalize/redact.go:70-85 | its hash is that of the first snippet there is, redacted if that is the first location's |
| Sarif.Normalize | internal/normalize/sarif.go:175-294 | all results of all runs, a repeated id recorded on the first finding of it by an index map |
| NormalizeLedger.NormalizedExactly | internal/normalize/sarif.go:280-290 | in order, the first finding of each id, listing its id once for every later result of that id |
| NormalizeLedger.NormalizedIDs | internal/normalize/sarif.go:280-290 | ids are distinct and every result's id is among them |
| NormalizeLedger.NormalizedCounts | internal/normalize/sarif.go:280-290 | findings and the repetitions they list add up to the number of results |
| SarifExport.Export | internal/normalize/sarif.go:316-436 | one run per tool, in the order in which the map of tools is walked; an empty report gives one empty run |
| SarifExport.ExportExactly | internal/normalize/sarif.go:328-335 | each tool of the report's runs has exactly one run in the log, whose results are all that tool's findings in order |
| SarifExport.VersionOfRuns | internal/normalize/sarif.go:328-335 | a tool's version is that of the last of its runs |
| SarifExport.VersionOfFindings | internal/normalize/sarif.go:346-348 | without runs, that of the first finding that names it first |
| SarifFields.ExportedRun | internal/normalize/sarif.go:379-432 | a tool's run lists each rule of its findings once and no other, and has a result for each finding with its rule and message |
| SarifFields.LevelExactly | internal/normalize/sarif.go:303-313 | critical and high go out as errors, medium as a warning, low as a note, anything else as none |
| SarifFields.ExportedLocation | internal/normalize/sarif.go:400-419 | a location goes out with a region exactly when it has a start line or a snippet, with its places, and with a snippet exactly when it has one |
| SarifFields.PrimaryToolExactly | internal/normalize/sarif.go:338-345 | without runs a finding goes under what the first comma of its tool ends, trimmed, or the whole of it, or a name of its own |
| SarifExport.GroupsAreDistinct | internal/normalize/sarif.go:350-359 | without runs, no tool's run has two findings of one id |
| SarifExport.GroupsHoldTheirOwn | internal/normalize/sarif.go:339-346 | without runs, a tool's findings are findings of the report that name it first |
| SarifExport.GroupsMissNoID | internal/normalize/sarif.go:337-361 | without runs, no finding's id is missing from the run of the tool it names first |
| SarifRoundTrip.LocationRoundTripExactly | internal/normalize/sarif.go:400-419 | a location comes back from export unchanged exactly when its hash is its snippet's, none without one, and it has a start line, a snippet, or no place at all |
| SarifRoundTrip.LocationsComeBackExactly | internal/normalize/sarif.go:242-280 | any finding's locations survive export and a second normalization exactly when each is such and redaction leaves its snippet alone |
| SarifRoundTrip.RoundTrip | internal/normalize/sarif.go:316-436 | exported as one tool's run and normalized again, findings come back in order with the same ids, rules, messages and locations |
| SarifRoundTrip.UnchangedTextPreservable | internal/normalize/redact.go:46-90 | a result whose own texts redaction leaves alone, with no empty snippet and a start line or snippet in every region, is one that comes back |
| SarifRoundTrip.EmptySnippetIsLost | internal/normalize/sarif.go:406-417 | an empty snippet's hash does not come back |
| SarifRoundTrip.BareColumnsAreLost | internal/normalize/sarif.go:406-417 | a region with columns and neither start line nor snippet loses them |
| SarifShift.FingerprintMoved | internal/correlate/fingerprint.go:14-16 | moving a finding's lines keeps its fingerprint |
| SarifShift.NormalizedMapped | internal/normalize/sarif.go:175-294 | whatever becomes of lines and columns in a log, if missing ones stay missing, normalizing it gives the same findings with that done to theirs |
| SarifShift.NormalizedMoved | internal/normalize/sarif.go:175-294 | normalizing a moved log gives the same findings with their lines moved |
| SarifRepeats.RepeatedContentIsAbsorbed | internal/normalize/sarif.go:172-174 | of two results of a run that differ in their places alone the second is never kept, and it is a copy of the first, but for its index, exactly when the values of their places are equal |
| SarifRepeats.SecondOccurrenceIsLost | internal/normalize/sarif.go:172-174 | one message at lines 1 and 2 of one file, each with a pointer of its own, leaves one finding, at line 1 |
| SarifRepeats.DropsOnlyCopiesExactly | internal/normalize/sarif.go:172-174 | unless two contents share a digest, every dropped finding equals the kept one but for its index and pointer addresses exactly when findings that agree on tool, rule, path and content anchor agree on everything but these |
| Store.RunSession.SaveArtifact | internal/store/store.go:96-135 | the tracked files and the directory after a save, for each way the write and the rename can fare |
| Store.RunSession.Discard | internal/store/store.go:138-146 | every tracked file is removed and none stays tracked |
| Store.RunSession.GetArtifact | internal/store/store.go:149-159 | over the session's own history, where saves are kept apart: a path saved at reads as the data of its last successful save, or as nothing if none succeeded, and whatever is read is that or a tracked temporary file |
| Store.SessionIsSound | internal/store/store.go:94-146 | over every sequence of saves, however they fare, and discards: a file is a tracked temporary or an artifact, what is tracked is some save's temporary, and an artifact holds the whole data of its last successful save |
| Store.PathExactly | internal/store/store.go:100-110 | where a save goes, character by character, and its temporary file beside it |
| Store.TrackedAfterSave | internal/store/store.go:109-127 | a save that succeeds tracks as much as before it, one that fails its temporary file besides |
| Store.FilesAfterSave | internal/store/store.go:109-119 | one that succeeds puts the whole data at its path and leaves no temporary file; one that fails leaves what was at the path |
| Store.DiscardLeavesArtifacts | internal/store/store.go:137-146 | after a discard exactly the artifacts are left, each whole |
| Store.ArtifactReadsBack | internal/store/store.go:148-159 | reading a path back gives its last successful save, or nothing if none succeeded |
| Store.DisturbanceExactly | internal/store/store.go:109-111 | a save can disturb another path exactly when that path is its temporary file |
| Store.CollisionHarms | internal/store/store.go:109-146 | then a failed save can leave an artifact half written and a discard can remove one |
| Store.FormatsKeepApart | internal/store/store.go:100-110 | with formats other than "tmp" and those ending in ".tmp" no path is another's temporary file |
| Store.FormatsTellExactly | internal/store/store.go:106 | two different formats give different file names, whatever the tools, exactly when neither is the end of the other after a dot |
| Store.PathTellsKey | internal/store/store.go:104-107 | with such formats, which formats without a dot are, a path determines the cleaned tool and the format |
| Store.DottedFormatsShareAPath | internal/store/store.go:104-107 | with others, two tools whose cleaned names differ by what stands before the dot share a path |
| Store.TwoKeysOnePath | internal/store/store.go:104-107 | tool "a" in format "b.c" and tool "a.b" in format "c" do |
| Tokenizer.TokenizeArguments | internal/app/commands.go:103-144 | the tokens, or an unclosed quote |
| Tokenizer.TokensExactly | internal/app/commands.go:100-144 | an error arises exactly when a quote is left open; no token is empty; the tokens together are the text less its delimiting quotes and unquoted white space |
| Tokenizer.UnbrokenIsOneToken | internal/app/commands.go:114-131 | text without unquoted white space is one token, quotes inside it joining rather than separating |
| Tokenizer.SpaceSeparates | internal/app/commands.go:121-129 | unquoted white space separates: both sides are read on their own |
| Tokenizer.QuotedArgumentsReturn | internal/app/commands.go:100-102 | non-empty arguments, none holding both quote characters, quoted and joined by spaces are read back |
| Tokenizer.ArgumentReturnsExactly | internal/app/commands.go:100-131 | a single argument, quoted, is read back exactly when it is not empty and lacks one of the two quote characters |
| Tokenizer.BothQuotesDoNotReturn | internal/app/commands.go:107-119 | one that holds both never comes back: the quote put around it closes early, and at least three delimiters are dropped where two were added |
| Tokenizer.EmptyArgumentVanishes | internal/app/commands.go:124-129 | an empty quoted argument yields no token |

## Left out

- Related.RelatedSymmetricExactly: package names, vulnerability ids and secret detection (internal/correlate/correlate.go:29-112) are uninterpreted functions of the fields they read, as are `filepath.Clean`, `filepath.Base` and `strings.EqualFold`; line sums do not wrap around at 64 bits.
- CorrelateOrder.RunOrderIrrelevant: states sufficient conditions; the exact one is `RunOrder.RunOrderFreeExactly`, which asks besides that no record lists another's id.
- Deduplicate.Deduplicate: finding lists are values, so runs that share one slice, and spare capacity shared between slices, are not modelled.
- Policy.Evaluate: the reason is what it is about, not its English wording; exit codes are values, not pointers; timestamps are strings compared as the source compares them.
- Schema.ValidateExact: error paths and messages are not modelled, numbers are reals, an integer is an integral number in the 64-bit range, and how values are written for enumeration is a parameter.
- Schema.AgreesWithStandard: a sufficient condition for a schema as a whole, the exact ones being for its nodes, and for the keywords the validator knows; the other keywords of the standard are not modelled, nor is rounding: numbers are real, and converting 9223372036854775808 to 64 bits, which depends on the platform, is taken to change it.
- PolicyShuffle.DecisionOrderFreeExactly: says nothing of the names in the reason of an incomplete verdict and of the order of uncovered checks, which can differ between orders of runs that share a tool and a command.
- SarifRoundTrip.RoundTrip: a sufficient condition on the log as a whole; the exact condition is proved for locations. The log passes from export to normalization as a value, not through JSON text.
- Sarif.Normalize: rule properties other than a textual "security-severity", rule indices and result properties, which it does not read, are not modelled, nor are the fixed detection timestamp and the adapters' severity rules, which are a parameter.
- Store.SessionIsSound: takes renaming to be atomic and removal in a discard to succeed, and paths to be the directory, a slash and the file name; formats that hold separators, reads of paths that are not absolute, and locking between goroutines, are not modelled.
- Parallel.RunTerminates: takes each task to return or panic; what a task does is a parameter.
- Runner.StateTellsExactly: starting, killing and reaping processes is not modelled, only what can happen to one.
- Scan.Assemble: saving raw artifacts and rewriting findings' artifact references, indices and commands are not modelled, nor are configuration loading, discovery and coverage text.
- Tokenizer.QuotedArgumentsReturn: a sufficient condition for lists; the exact one is proved for a single argument.
- Tokenizer.TokenizeArguments: text is a sequence of characters; invalid UTF-8 is not modelled.
- The pattern matching of the redactor: a function on text.
- SHA-256: a function from text to 64 characters; nothing is assumed about collisions but where a lemma says so.
- Native JSON parsers (internal/normalize/native.go): the same index map as Normalize, with other field names.
- Adapters, the command line, the MCP server, version reporting, Git probing and directory walking.
- JSON encoding and decoding, and loading schema files.
