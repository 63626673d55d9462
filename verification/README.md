# Telemetry Change Guard: verified core

Telemetry Change Guard decides whether a proposed telemetry change is safe, given the dashboards, alerts, rules and
other consumers it discovered. This project models that decision and the algorithms around it in Dafny and proves
what they promise.

| module | file of the program | what it is |
|---|---|---|
| `Ordering`, `Domain` | `internal/domain`, the comparators of every sort | records, sort keys, sorting with forced results, folds |
| `Paths`, `Graphs` | `internal/graph/graph.go` | the mutable graph as a class, its breadth-first search, walks and distance |
| `Build` | `internal/impact/build.go` | building the graph from evidence, node identity |
| `Impact`, `Findings`, `Reach` | `internal/impact/finding.go` | paths to consumers, findings, what reachability means for the evidence |
| `Safety`, `Pipeline` | `internal/safety/evaluator.go`, `internal/analysis/engine.go` | policy, status, the whole run |
| `Comparators` | the comparators of every sort | that sorting by key lists is sorting by the program's comparisons |
| `Facts`, `RunFacts` | `internal/impact/finding.go`, `internal/safety/evaluator.go` | what symbols, criticalities and policies mean by their fields, and what a run says about the evidence in those terms |
| `Readiness`, `ReadinessFacts` | `internal/readiness/evaluator.go` | the second engine, its agreement with the first, and what it says about the evidence |
| `Remediation`, `RemediationFacts` | `internal/remediation/validator.go`, `protocol.go` | splicing and re-checking a candidate patch, and exactly when one is accepted |
| `Escaping`, `JsonPatch` | `internal/remediation/artifact.go`, `adapters/cloudformation/loader.go` | escaped segments, patching one leaf of a JSON tree |
| `Artifacts` | `adapters/cloudformation/loader.go` | three-colour search for dependency cycles |
| `AgentAttempts`, `Controller`, `ControllerFacts` | `experiments/agentic/controller.go` | the bounded attempt protocol against any environment, and how its answers decide the outcome |
| `Regexes`, `Glob`, `GlobLines`, `GlobNames` | `internal/ownership/matcher.go` | CODEOWNERS patterns and their regular expressions |
| `Snapshots`, `SnapshotDiff` | `internal/snapshot` | validation and comparison of telemetry snapshots |
| `CodeSpan` | `internal/report/sanitize.go` | CommonMark code spans, printed and read back |
| `RuntimeQueries` | `adapters/runtimequeries/loader.go` | the window and the aggregates of observed queries |
| `Segments` | `internal/source/files.go` | `**` segment matching |
| `SourceBudget` | `internal/source/secure.go` | the aggregate file and byte budget |

Code that changes things step by step is modelled by classes and by methods with loops, each proved against a
specification function or a stated property. The theorems are lemmas about those specifications, or the `ensures`
clauses of the methods themselves. The main ones:

- **The decision.** Permuting evidence or changes changes nothing (`Pipeline.RunIgnoresOrder`); more evidence never
  looks safer (`Pipeline.RunFailsClosed`); ERROR has exact causes (`Pipeline.ErrorIsExact`); PASS holds exactly when
  no chain of references and productions of any length leads from a changed symbol to a consumer and nothing is in
  doubt (`Pipeline.PassIsExact`); every other status has its exact causes in the fields of the evidence and the policy
  (`RunFacts.StatusIsExact`); the two engines agree (`Readiness.EnginesAgree`), and each readiness class, status and
  count is what the evidence says (`ReadinessFacts.ClassIsExact`, `ReadinessFacts.AssessmentIsExact`,
  `ReadinessFacts.SummaryIsExact`).
- **The re-check.** A candidate is accepted exactly when it is traced, readable, rid of the old symbol, properly patched
  and confirmed by the evidence with the patch in place, and each refusal has its exact cause
  (`RemediationFacts.AcceptanceIsExact`, `RemediationFacts.RefusalIsExact`).
- **The search.** One simple, shortest path to each reachable node, cycles included
  (`Paths.FoundPathsAreSimpleWalks`, `Paths.FoundPathsAreComplete`).
- **The protocol.** For every environment: a bounded number of agent executions, each later one after a clean BLOCK
  and with its feedback, and success exactly when the last attempt passed every check (`Controller.Run`). Every
  outcome is decided by the answers in the way `ControllerFacts.OutcomeIsExact` lists.
- **Transformations.** Globs keep their meaning as regular expressions, a JSON patch changes one leaf and reports
  its pointer, printed code spans read back as they were, snapshot differences are exactly the deltas and the
  generated changes remove exactly what is gone (`SnapshotDiff.ChangesAreExact`).

Some promises have an exact boundary, and both sides of it are proved:

- Symbol node IDs are joined with `:`. Two symbols can share a node unnoticed exactly when the text of one domain and
  kind begins with the text of another (`Build.IdentityIsFaithfulExactly`). The supported domains and kinds hold no
  colons, so no such pair exists today (`Build.SupportedScopesAreUnambiguous`).
- Edges are deduplicated by a text joined with NUL. The built graph is the graph of the evidence exactly when no two of
  its edges have the same text (`Build.BuildGraph`). Without NULs in IDs none have (`Build.NulFreeSeparable`); with
  NULs some may (`Build.NulsLoseEdges`).
- The dot of a compiled glob does not match a line break. A path is treated as every pattern means exactly when it
  holds no line break (`GlobLines.PathAgreesExactly`), and a pattern means what it says on every path exactly when it
  neither covers what lies below its match nor holds `**` (`GlobLines.PatternAgreesExactly`).
- Widening a positive runtime-query window drops no query, unless the narrower cutoff is the zero time, which turns
  filtering off, and the log can hold an event before the wider cutoff (`RuntimeQueries.WideningIsSafeExactly`).
- The remediation matcher applies metric-family suffixes to every domain, the graph only to Prometheus, so the two
  matchers agree for exactly the Prometheus symbols (`Remediation.MatchersAgree`). This costs nothing: the query
  analyser names Prometheus symbols only, so every accepted candidate is MIGRATED or DUAL
  (`Remediation.AcceptedMeansMigrated`).

`dafny verify dfyconfig.toml` checks the whole project.

## Model

| member | source | states |
|---|---|---|
| `Graphs.Graph.AddNode` | internal/graph/graph.go:76-88 | Adds a new node; accepts one already there with the same kind and name; refuses an empty ID or a conflict and then leaves the graph as it was; the four maps stay consistent |
| `Graphs.Graph.AddEdge` | internal/graph/graph.go:91-106 | Needs both ends; a known edge text changes nothing; a new edge is in both adjacency lists exactly once |
| `Graphs.Graph.Nodes` | internal/graph/graph.go:115-123 | Every node in ID order, whatever order the map yields them in |
| `Graphs.Graph.ImpactPaths` | internal/graph/graph.go:158-192 | The queue and visited-set loop terminates on every graph and returns exactly the found paths whose properties `Paths` proves; nothing for an unknown start |
| `Graphs.EdgeTextInjective` | internal/graph/graph.go:222-224 | The text that deduplicates edges identifies the edge when node IDs hold no NUL |
| `Paths.FoundPathsAreSimpleWalks` | internal/graph/graph.go:158-192 | On every finite graph, cyclic or not: each path is a walk over real edges without repeated nodes, they are in order of length and end at distinct nodes other than the start |
| `Paths.FoundPathsAreComplete` | internal/graph/graph.go:158-192 | A node other than the start gets a path if and only if some walk leads there, and no walk is shorter than its path |
| `Paths.DirectFilterIsExact` | internal/impact/finding.go:155-169 | Dropping paths of more than one edge keeps exactly the nodes one edge away |
| `Build.BuildGraph` | internal/impact/build.go:15-66 | Succeeds exactly when no node ID is claimed with two kinds or names and every reference and production names a discovered consumer; then the nodes are those of the evidence, and the graph is its order-free graph exactly when no two edges have the same text |
| `Build.NulFreeSeparable` | internal/graph/graph.go:222-224 | Without NULs in node IDs no two edges of the evidence have the same text |
| `Build.NulsLoseEdges` | internal/graph/graph.go:222-224 | For any symbol and two IDs there is evidence with NULs in its IDs that builds and loses an edge |
| `Build.GraphIgnoresOrder` | internal/impact/build.go:15-66 | Permuted evidence gives the same graph |
| `Build.SymbolNodeIdInjective` | internal/graph/graph.go:195-204 | Unless two domains and kinds clash, equal IDs and equal names leave no room for two symbols although names and parents may hold colons |
| `Build.SharingIsExact` | internal/graph/graph.go:195-204 | Symbols of one name in two different domains and kinds can share an ID if and only if the text of one domain and kind begins with the text of the other |
| `Build.SymbolsDoNotShareNodes` | internal/impact/build.go:68-79 | Whenever the build succeeds and no two domains and kinds of the evidence clash, two symbols share a node only if they are equal: a collision forces differing names on one node, which is refused |
| `Build.NodeIdsAreFaithful` | internal/graph/graph.go:195-208 | Node IDs identify what nodes stand for; no symbol node is a consumer node |
| `Build.ClashesMerge` | internal/impact/build.go:68-79 | For every two clashing domains and kinds there is evidence that builds although two of its symbols share a node |
| `Build.IdentityIsFaithfulExactly` | internal/impact/build.go:31-79 | Among given domains and kinds, no evidence that builds merges two symbols if and only if no two of them clash |
| `Build.SupportedScopesAreUnambiguous` | internal/domain/symbol.go:9-30 | The supported domains and kinds never clash |
| `Impact.ImpactedConsumers` | internal/impact/finding.go:146-171 | For every consumer ID: exactly the paths that start at a node matching the symbol and end at that consumer, in reported order; direct ones only when transitive analysis is off |
| `Reach.ImpactIsExact` | internal/impact/finding.go:146-171 | A consumer gets a path if and only if a symbol denoting the changed one feeds it through some number of produced symbols (none when only direct dependencies count) |
| `Facts.MatchingMeans` | internal/impact/finding.go:175-199 | A reference matches a changed symbol if and only if it is that symbol, or both are Prometheus metrics of one family, or both are Prometheus labels of one name on metrics of one family; a family is the metric's own name and four suffixed ones |
| `Facts.OpenMeans` | internal/impact/finding.go:203-217 | An unresolved reference applies to a change if and only if it lacks more than its labels, or the change is about a label and the reference names a metric of the family of that label's metric, before or after |
| `Findings.CheckIds` | internal/impact/finding.go:63-75 | Reports an empty consumer ID, else a duplicate one, else nothing |
| `Findings.Analyze` | internal/impact/finding.go:53-115 | Equals the analysis whose findings `AnalysisContents` characterises, errors and stopping point included |
| `Findings.AnalysisContents` | internal/impact/finding.go:83-113 | Without error a finding is reported if and only if it is that of a change and a consumer with a path or an uncertainty, with the pair's impact type, references and paths |
| `Findings.AnalysisOnePerPair` | internal/impact/finding.go:83-113 | Complete or stopped early, no two findings are about the same change and consumer, and each is about an affected pair |
| `Findings.AnalysisCountsPairs` | internal/impact/finding.go:83-113 | A complete analysis has exactly as many findings as there are affected pairs |
| `Safety.ValidateFindings` | internal/safety/evaluator.go:220-259 | Accepts exactly the lists whose findings are all valid and pairwise distinct by change, consumer and impact |
| `Facts.ValidityMeans` | internal/safety/evaluator.go:220-245 | A finding is valid if and only if it names its change and consumer, has the impact that consumers of its kind suffer and its consumer's criticality, which is known, or missing while in doubt |
| `Safety.FindingTextInjective` | internal/safety/evaluator.go:246-256 | Without NULs in the IDs, the text that duplicates are detected by tells change, consumer and impact |
| `Safety.Evaluate` | internal/safety/evaluator.go:96-154 | Equals the evaluation that `StatusMeaning` and `RunFacts.RunReports` characterise: an error for an invalid policy or findings, otherwise one decision per finding |
| `Safety.SomethingBlocks` | internal/safety/evaluator.go:119-149 | Some decision blocks exactly when some finding's rule blocks at its criticality and the mode enforces |
| `Safety.StatusMeaning` | internal/safety/evaluator.go:261-285 | INCOMPLETE exactly for a required diagnostic or an uncertain finding, else BLOCK exactly when a finding blocks, PASS exactly when there is neither finding nor diagnostic |
| `Pipeline.RunSafety` | internal/analysis/engine.go:72-103 | For all evidence, the composed run (build, analyse, limit, evaluate) is the run on the graph that was built; unless two edges have the same text it equals the function the theorems below are about |
| `Pipeline.RunIgnoresOrder` | internal/analysis/engine.go:72-103 | Permuting consumers, references, productions, diagnostics or changes leaves findings, decisions, diagnostics and status identical |
| `Pipeline.FindingOrderIsForced` | internal/safety/evaluator.go:329-353 | Any way of sorting the findings gives the same list: ties are equal values, also for the partial lists of a stopped analysis and of the limit |
| `Pipeline.PassIsExact` | internal/safety/evaluator.go:261-285 | PASS if and only if the evidence builds, IDs and policy are valid, nothing was diagnosed, and for every change and consumer there is no doubt and no reference/production chain of any length |
| `Pipeline.ErrorIsExact` | internal/analysis/engine.go:80-103 | ERROR if and only if the evidence does not build, a consumer ID is empty or used twice, the policy is invalid, the affected pairs exceed the limit, or an affected pair has a consumer kind without impact type, an unknown criticality or no change ID |
| `Pipeline.RunFailsClosed` | internal/impact/finding.go:83-113 | Adding evidence, diagnostics or changes, or marking a consumer unresolved, never lowers the status when both runs end without error |
| `RunFacts.StatusIsExact` | internal/safety/evaluator.go:119-149 | Without error, INCOMPLETE (exit code 3) if and only if something required was diagnosed or a consumer is in doubt about a change; else BLOCK (exit code 2) if and only if a change reaches a consumer whose kind, criticality and rule the policy blocks; else exit code 0 |
| `RunFacts.UnresolvedIsIncomplete` | internal/impact/finding.go:203-217 | An unresolved reference of a listed consumer makes the run INCOMPLETE whenever it lacks more than its labels or names the metric of a changed label, with or without a generated suffix, and applies in no other case |
| `RunFacts.RunReports` | internal/safety/evaluator.go:96-154 | Without error, exactly the affected pairs are reported, each with the consumer's fields, the impact of its kind, its doubt and exactly its references to the changed symbol or left open; each finding has the policy's decision and the reason for softening it; the diagnostics are repeated |
| `Facts.ImpactMeans` | internal/impact/finding.go:119-143 | Which kinds of consumers suffer which impact |
| `Facts.RankMeans` | internal/safety/evaluator.go:314-327 | A criticality reaches a minimum if and only if it is one of the texts from that minimum up |
| `Domain.ReferenceKeyInjective` | internal/impact/finding.go:219-280 | The reference comparison separates any two references of one consumer |
| `Domain.DiagnosticKeyInjective` | internal/safety/evaluator.go:355-382 | The diagnostic comparison separates any two diagnostics |
| `Comparators.ReferencesCompare` | internal/impact/finding.go:228-279 | The key list that references are sorted by here orders them exactly as the program's comparison does, field by field, with strings in their built-in order |
| `Comparators.DiagnosticsCompare` | internal/safety/evaluator.go:357-380 | The same for diagnostics: adapter, source, message, and required ones last |
| `Comparators.FindingsCompare` | internal/safety/evaluator.go:343-351 | The same for findings: change, consumer, impact |
| `Comparators.EdgesCompare` | internal/graph/graph.go:210-220 | The same for edges: source, destination, kind |
| `Readiness.Evaluate` | internal/readiness/evaluator.go:86-153 | Classifies every consumer for every change and summarises by the worst class, as the assessment the next rows are about |
| `Readiness.EnginesAgree` | internal/readiness/evaluator.go:115-187 | For every change and consumer of known criticality: LEGACY_ONLY or DUAL iff the analysis reports a finding with paths, UNCERTAIN iff one without, MIGRATED or UNAFFECTED iff none |
| `Readiness.SummaryIsComplete` | internal/readiness/evaluator.go:255-278 | Each consumer is counted once; progress is at most 100, and 100 exactly when no consumer is LEGACY_ONLY or UNCERTAIN for any change |
| `Readiness.WorstIsPending` | internal/readiness/evaluator.go:280-292 | The kept classification is one that occurred, none ranks above it, and it is pending exactly when some change left the consumer pending |
| `ReadinessFacts.ClassIsExact` | internal/readiness/evaluator.go:155-187 | LEGACY_ONLY if and only if only the old symbol reaches the consumer, DUAL if both do, UNCERTAIN if the old one does not and something is left open, MIGRATED if nothing is and the new one does, UNAFFECTED otherwise |
| `ReadinessFacts.ReferencesAreListed` | internal/readiness/evaluator.go:189-207 | A result lists exactly the consumer's references to the old symbol, to the new one, and those left open |
| `ReadinessFacts.AssessmentIsExact` | internal/readiness/evaluator.go:86-252 | Refused only for an empty or repeated consumer ID; otherwise every change in order with every consumer once, and BLOCKED, INCOMPLETE and READY of each change and of all are exactly what reachability, doubt, criticality texts, policy flags and required diagnostics make of them |
| `ReadinessFacts.SummaryIsExact` | internal/readiness/evaluator.go:255-292 | Each count is the number of consumers whose gravest class over all changes it names; the progress is the share of DUAL and MIGRATED among the affected, rounded down, and 100 if none is |
| `Remediation.MatchersAgree` | internal/remediation/protocol.go:253-273 | The remediation matcher agrees with the impact matcher on every reference exactly when the changed symbol is a Prometheus metric or label |
| `Remediation.ReplaceSourceDiscovery` | internal/remediation/validator.go:220-247 | The loops compute the splice: evidence of the file's consumers out, the candidate's evidence in |
| `Remediation.SpliceStaysDiscovered` | internal/remediation/validator.go:220-247 | Splicing a self-contained candidate keeps every reference and production with a discovered consumer |
| `Remediation.SpliceKeepsOtherEvidence` | internal/remediation/validator.go:220-247 | The references and productions of a consumer of another file stay the same, order included |
| `Remediation.ValidateCandidate` | internal/remediation/validator.go:81-172 | For all evidence, takes the source's checks in their order and re-assesses on the graph that was built; unless two edges have the same text it equals the validation the next rows are about |
| `Remediation.ScreenedIsPrometheus` | internal/remediation/validator.go:96-108 | No candidate passes the checks unless its destination is a Prometheus metric or label, because the query analyser names no other symbol |
| `Remediation.AcceptedMeansMigrated` | internal/remediation/validator.go:103-148 | Every accepted candidate, whatever its destination and artifact, has its consumer reclassified MIGRATED or DUAL, never UNAFFECTED |
| `RemediationFacts.RefusalIsExact` | internal/remediation/validator.go:90-128 | Each refusal before the re-analysis has its exact cause, looked for in this order: an untraced target, secret-like text, a query that does not parse or stays unresolved, the old symbol kept or the new one missing in the query, a bad artifact, another expression, the old symbol kept or the new one missing in the artifact |
| `RemediationFacts.AcceptanceIsExact` | internal/remediation/validator.go:81-172 | Accepted if and only if nothing is wrong with the candidate itself, the spliced evidence builds with proper IDs, and there the old symbol still reaches the consumer or nothing is left open; then DUAL or MIGRATED accordingly, with the readiness of that evidence |
| `RemediationFacts.ReassessmentIsExact` | internal/remediation/validator.go:130-148 | The refusals that need the spliced evidence and their exact causes; a proper candidate is never LEGACY_ONLY |
| `RemediationFacts.TracedMeans` | internal/remediation/validator.go:175-199 | The provenance check passes if and only if the first change of the ID has exactly the two symbols, the first consumer of the ID has the file, expression and artifact kind, and it refers to the old symbol without open questions |
| `Escaping.EscapedRoundTrip` | internal/remediation/artifact.go:157-168 | Escaping, joining with slashes, splitting and unescaping in the order of section 4 of RFC 6901 gives the segments back |
| `Escaping.QualifiedNamesAreUnique` | adapters/cloudformation/loader.go:539-546 | Different assembly paths or artifact IDs never share a qualified name |
| `JsonPatch.ReplaceScalar` | internal/remediation/artifact.go:124-149 | Rewrites every string equal to the old value and lists the pointer of each, in traversal order |
| `JsonPatch.PatchJson` | internal/remediation/artifact.go:99-122 | Succeeds with the rewritten tree and one pointer when exactly one string matches, and refuses otherwise |
| `JsonPatch.PatchesUniqueOccurrence` | internal/remediation/artifact.go:99-122 | A patch succeeds if and only if exactly one place of the tree holds the old string |
| `JsonPatch.PatchChangesOnlyThat` | internal/remediation/artifact.go:99-168 | The output differs from the input only at that place; evaluating the returned pointer by sections 3 and 4 of RFC 6901 yields the old value in the input and the new one in the output |
| `JsonPatch.IndexToken` | internal/remediation/artifact.go:124-149 | The decimal text of an array index and the index a pointer token denotes determine each other |
| `Artifacts.Visitor.Visit` | adapters/cloudformation/loader.go:396-416 | Finishes the artifact and all it depends on, or reports an active artifact on a real cycle; the uncoloured artifacts are the termination measure |
| `Artifacts.ValidateArtifactGraph` | adapters/cloudformation/loader.go:383-423 | No error if and only if every dependency is known and no cycle is reachable; a reported cycle passes through the named artifact |
| `Artifacts.WholeGraphAcyclic` | adapters/cloudformation/loader.go:383-423 | When the given IDs are all the artifacts, what is checked is that the dependency relation has no cycle at all |
| `AgentAttempts.Attempt` | experiments/agentic/controller.go:91-253 | Takes the steps of the checklist up to the first that fails, with that failure's outcome, status and record |
| `Controller.Respond` | experiments/agentic/controller.go:254-286 | After a clean evaluation: retry exactly on a BLOCK with attempts left, otherwise the outcome of the status |
| `Controller.TryOnce` | experiments/agentic/controller.go:91-286 | One turn of the loop: goes on exactly from a clean BLOCK with attempts left, with that evaluation's feedback, and otherwise ends the run as its last attempt was judged |
| `Controller.RunAttempts` | experiments/agentic/controller.go:90-288 | The loop ends in the one attempt before which all were clean BLOCKs, with the exact trace, records and status of the attempts; the impossible state is reached only without attempts |
| `Controller.Run` | experiments/agentic/controller.go:32-288 | For every environment: no agent execution without set-up, at most the allowed number, the impossible state if and only if no attempt is allowed, exit code 0 if and only if the last attempt is clean, judged PASS or WARN, written, published and cleaned up after, and a run that cannot be set up ends with the outcome of the step that failed |
| `Controller.ExitCodeIsExact` | experiments/agentic/controller.go:325-339 | Exit codes 0, 2 and 3 mean exactly a clean accepted, blocked or incomplete last attempt with everything written, published and closed |
| `ControllerFacts.OutcomeIsExact` | experiments/agentic/controller.go:90-288 | From the answers alone: which failed checks are integrity failures and which the agent's, REVIEW_READY exactly for PASS or WARN with everything passed, BLOCKED and INCOMPLETE likewise, and for ERROR, an unknown status or a failed write a failure with its cause |
| `ControllerFacts.ExitCodeSays` | experiments/agentic/controller.go:325-339 | The exit code as a function of the answers: 0 for a passed attempt judged PASS or WARN, 2 for BLOCK, 3 for INCOMPLETE, 1 for anything else |
| `ControllerFacts.RecordsAreExact` | experiments/agentic/controller.go:98-251 | Attempts before the last are recorded as BLOCK; the last as judged, or as failed with its evaluation's status, or not at all after a failed write; the published status follows |
| `AgentAttempts.CleanMeansEveryCheck` | experiments/agentic/controller.go:92-252 | An attempt counts as clean exactly when each of its steps, every integrity check included, passed |
| `Controller.AgentIsBounded` | experiments/agentic/controller.go:90-146 | The agent executions of a run are those of attempts 1, 2, ... in order, at most the allowed number, the first without feedback and each later one after a clean BLOCK with that evaluation's feedback |
| `Controller.RetryFollowsBlock` | experiments/agentic/controller.go:267-280 | Before a later execution the trace holds the integrity check that follows the previous evaluation, which was a clean BLOCK |
| `Controller.SuccessEndsWithChecks` | experiments/agentic/controller.go:190-266 | In a successful run the last evaluation is PASS or WARN, all checks around it passed, and only writing the diff, publishing and closing came after the last of them |
| `Glob.Compile` | internal/ownership/matcher.go:17-83 | Refuses exactly the unsupported patterns; the expression built by the index loop accepts exactly the paths the pattern matches |
| `Glob.ExpressionMeans` | internal/ownership/matcher.go:46-78 | On every path, the language of the regular expression is the declarative meaning of the pattern, with `**` stopping at line breaks |
| `GlobLines.PlainPaths` | internal/ownership/matcher.go:46-78 | On paths without line breaks that is the plain meaning of the pattern |
| `GlobLines.LineBreaksHide` | internal/ownership/matcher.go:53-61 | Every path with a line break is missed by the pattern `**`, which means everything |
| `GlobLines.PathAgreesExactly` | internal/ownership/matcher.go:46-78 | Every supported pattern treats a path as it means if and only if the path holds no line break |
| `GlobLines.PatternAgreesExactly` | internal/ownership/matcher.go:46-78 | A pattern treats every path as it means if and only if it neither covers what lies below its match nor holds `**` |
| `GlobNames.NamesMatchSegments` | internal/ownership/matcher.go:44-75 | A slashless, unanchored pattern without `**` matches exactly when one of the path's segments matches it |
| `Glob.MatchIgnoresSpelling` | internal/ownership/matcher.go:85-88 | Backslashes match as slashes, and a leading `./` makes no difference to any path that does not begin with one already |
| `Snapshots.Normalize` | internal/snapshot/snapshot.go:151-226 | Accepts exactly the valid snapshots (all limits, types, names and label rules, no duplicates) and returns metrics and labels in order |
| `Snapshots.ValidityIsExact` | internal/snapshot/snapshot.go:151-225 | The limits, texts and types that make a snapshot valid, one by one |
| `SnapshotDiff.NormalizedIsSame` | internal/snapshot/snapshot.go:208-220 | Normalising changes nothing about what a snapshot says |
| `SnapshotDiff.CompareMetric` | internal/snapshot/diff.go:137-175 | Lists exactly the type, unit and label deltas of one metric, each once |
| `SnapshotDiff.Compare` | internal/snapshot/diff.go:48-126 | Lists exactly the deltas of the two snapshots, once each and in order, with a change per removal and a required diagnostic per drift; rejects exactly invalid snapshots; never sees differing domains; with NUL-free names and an injective digest the change set is refused only for a blank name |
| `SnapshotDiff.DifferencesAreUnique` | internal/snapshot/diff.go:264-287 | There is only one such list, whatever order metrics and labels come in |
| `SnapshotDiff.ComparisonIgnoresOrder` | internal/snapshot/diff.go:48-126 | Reordering metrics and labels leaves differences, changes and diagnostics the same |
| `SnapshotDiff.EveryDifferenceIsAnswered` | internal/snapshot/diff.go:90-113 | Changes, diagnostics and additions add up to the differences; each removal has its change and each drift its diagnostic |
| `SnapshotDiff.ChangesAreExact` | internal/snapshot/diff.go:177-206 | For each metric that is gone exactly one change of kind metric_remove from that Prometheus metric, for each lost label exactly one of kind label_remove from that label of that metric, and no others; without a replacement, with the names of both snapshots and the ID built from kind, parent and name |
| `SnapshotDiff.DiagnosticsAreExact` | internal/snapshot/diff.go:208-226 | Exactly one diagnostic for each type or unit that changed or cannot be compared, each required |
| `SnapshotDiff.DifferencesAreOrdered` | internal/snapshot/diff.go:264-287 | Differences come by metric, then by kind in the listed order, then by label, then by field |
| `SnapshotDiff.ChangeIdsAreDistinct` | internal/snapshot/diff.go:177-209 | Removals of different symbols get different change IDs |
| `SnapshotDiff.SwappedComparison` | internal/snapshot/diff.go:48-175 | Swapping the inputs swaps added with removed and before with after, and nothing else |
| `SnapshotDiff.QuietMeansSurvival` | internal/snapshot/diff.go:90-113 | No changes and no diagnostics if and only if every baseline metric survives with all its labels, its type and its unit |
| `CodeSpan.TerminalValueIsPrintable` | internal/report/sanitize.go:11-19 | The sanitised value has no control character and neither begins nor ends with a space |
| `CodeSpan.TerminalValueIsIdempotent` | internal/report/sanitize.go:11-19 | Sanitising twice is sanitising once |
| `CodeSpan.LongestRun` | internal/report/sanitize.go:29-40 | The two counters find the length of the longest backtick run |
| `CodeSpan.MarkdownCode` | internal/report/sanitize.go:24-43 | Reading the output as a code span by section 6.1 of the CommonMark Spec 0.31.2 consumes all of it and yields the sanitised value; an empty value prints two backticks |
| `CodeSpan.SpanRoundTrip` | internal/report/sanitize.go:41-42 | A trimmed printable value between fences longer than its runs is read back as it is |
| `RuntimeQueries.Anchor` | adapters/runtimequeries/loader.go:111-116 | The anchor is the newest timestamp of the log |
| `RuntimeQueries.AggregateEvents` | adapters/runtimequeries/loader.go:121-153 | One aggregate per query with an event in the window: its count, first and last time, the smallest line at the last time, its origins and details; the counts add up to the events in the window |
| `RuntimeQueries.RecordedSummarises` | adapters/runtimequeries/loader.go:128-152 | One more event updates count, bounds, latest line, origins and details of its query as the summary of all events so far requires |
| `RuntimeQueries.Observe` | adapters/runtimequeries/loader.go:111-162 | Anchor, cutoff and aggregation together, with the queries in order |
| `RuntimeQueries.ObservationIsExact` | adapters/runtimequeries/loader.go:111-153 | For every window, also none: the aggregated events are exactly those not before the start of the window, or all of them when there is no window or it starts at the zero time |
| `RuntimeQueries.OrderIsIrrelevant` | adapters/runtimequeries/loader.go:121-153 | For one cutoff, any permutation of the line-numbered events gives the same aggregates |
| `RuntimeQueries.ObservationIgnoresOrder` | adapters/runtimequeries/loader.go:111-162 | Permuted logs have the same anchor and cutoff, and so are observed alike |
| `RuntimeQueries.WideningIsSafeExactly` | adapters/runtimequeries/loader.go:117-125 | For logs with a given newest event and no event before a given time, every query aggregated with the narrower window is aggregated with the wider one, if and only if the narrower cutoff is not the zero time, the windows are equal, or no event can lie before the wider cutoff |
| `Segments.MatchSegmentsDecides` | internal/source/files.go:269-291 | True implies that the candidate splits into one piece per pattern segment, false that it does not, and an error that some segment is malformed |
| `Segments.MatchSegmentsIsExact` | internal/source/files.go:269-291 | With well-formed segments the answer is given and is exact |
| `SourceBudget.NewBudget` | internal/source/secure.go:36-70 | A budget exists exactly for positive limits and a root that opens, and starts empty |
| `SourceBudget.Budget.Register` | internal/source/secure.go:209-247 | Accepts a known file as it is and a new one if it fits; the total is the sum of recorded sizes, within both limits and without overflow of 64 bits; a refused call changes nothing |
| `SourceBudget.RunStaysWithin` | internal/source/secure.go:209-247 | After any sequence of calls the limits hold and every recorded file keeps its first size |
| `SourceBudget.AcceptedExactlyWhenItFits` | internal/source/secure.go:209-247 | A run over existing files is accepted as a whole if and only if its distinct files fit together |

## Left out

- Pipeline.RunSafety: the validation of the change set before discovery and the trace-mapping diagnostics.
- Pipeline.ErrorIsExact: change and consumer IDs hold no NUL and change IDs are distinct; with NULs two findings may share the text they are deduplicated by.
- Remediation.ValidateCandidate: the secret filter, the parsing of the query and the patched artifact's discovery are inputs; of the query analyser the references it builds are modelled.
- Controller.Run: the deadlines, clocks, text sanitising and the contents of artifacts are not modelled; every call into the sandbox, the file system, git or the evaluator is an arbitrary answer, and how feedback is condensed is a parameter.
- Glob.Compile: patterns are byte sequences, as the compiler reads them, and paths are code points; what a pattern outside ASCII looks like to its author is not modelled.
- Snapshots.Normalize: a name is blank when it holds only ASCII white space; issues are counted as present or absent, not listed.
- SnapshotDiff.Compare: SHA-256 is a parameter; of the change-set validation the checks that generated changes can fail are modelled (unique IDs, a name that is not blank).
- RuntimeQueries.Observe: decoding of log lines and their limits; events and line numbers are inputs.
- RuntimeQueries.WideningIsSafeExactly: the earliest time a log can hold is a parameter; RFC 3339 timestamps begin with year 0000, a year before the zero time, so two windows more than about a year apart never lose a query.
- SourceBudget.Budget.Register: path resolution, symbolic links and file opening; a resolved identity and size are inputs.
- CodeSpan.MarkdownCode: which characters are controls or white space is a parameter with four facts about it.
- Artifacts.ValidateArtifactGraph: cancellation of the context.
- Lower-casing covers ASCII letters.
- Owners, runtime summaries and consumer metadata, which no decision reads.
- PromQL and YAML parsing, YAML patching, adapter loaders and HTTP clients: they rest on external libraries or only move fields.
- Building remediation requests and rendering reports: only easy members.
- The wording of errors and diagnostics: errors are datatype cases.
