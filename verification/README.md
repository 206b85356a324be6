# Verified model of the decision-support backend

This project models the stateful core of the NestJS backend in Dafny and proves what its searches, protocols,
parsers and arithmetic rules guarantee. The database is an explicit in-memory store: a service whose methods write
rows is a class (or a set of methods over the shared `Database` object) whose methods are proved equal to a function
of the old tables, and the theorems about whole runs are proved about those functions.

`dafny verify dfyconfig.toml` checks everything.

| part | modules | question answered |
|---|---|---|
| knowledge graph | `KnowledgeGraph`, `GraphTables`, `GraphWalks`, `GraphImpact`, `GraphPath`, `KnowledgeStore` | what the two recursive queries return on any finite multigraph |
| drift detection | `DriftDetector`, `DriftRuns`, `DriftKeys`, `DriftEmitted` | which events any sequence of scans creates and resolves, and what that means for the module tree |
| module tree | `ModuleTree`, `ModuleTreePatterns`, `ModuleTreeRoundTrip` | what the architecture-document parser reads |
| Ask records | `AskIngest`, `AskIngestRoundTrip`, `AskIngestExact` | when a printed record is read back |
| recommendations | `Tables`, `RecommendationService`, `CheckpointService`, `MemoryService`, `ExecutionMemories`, `DecisionMemoryService`, `TableEffects`, `Lifecycle`, `Conservation`, `StoreAgreement`, `ForeignWrites`, `CheckpointRuns` | the status machine and its two memory stores |
| memories | `MemoryDecay`, `TopPatterns` | decay, clean-up and ranking |
| trust scores | `Executions`, `TrustScore`, `TrustTargets`, `TrustSync`, `TrustPosting`, `TrustArithmetic` | what each row counts, incremental against full refresh, what posting executions leaves, and the rounded score |
| self-healing | `SelfHeal`, `SelfHealRaces`, `RetryTrust` | bounded retries, alone and with overlapping callers |
| context packing | `ContextManager`, `ContextCache` | what fits the token budget of a tier, and whose answer the cache gives |
| fallback chains | `Fallback`, `FallbackAnswers` | which fallback steps are offered for any stored chains |

`Wrappers`, `Counting`, `Sorting` and `Text` hold option and result types, counting by a condition, the stable sort
behind ORDER BY and Array.prototype.sort, and the JavaScript string operations.

## How the code is rendered

- The two recursive SQL queries are evaluated as SQL defines UNION ALL recursion: the working table is kept and
  replaced by its step until it is empty. Dafny's loops stop at the depth limit instead, and `GraphTables` proves that
  the working table is empty there, so that stopping later would change nothing. The answers are compared with walks,
  that is sequences of stored edges.
- Runs are sequences of operations. A function folds each operation into the tables; the methods are proved to
  perform exactly that fold.
- Overlapping retry callers are a transition system whose read and write are separate steps, with an environment that
  may change any outcome in between.
- Clocks and generated identifiers are parameters. A generated identifier is required to be new; that is what the
  database promises.
- Decay weights and scores are reals. The decay factor is only assumed to halve a weight in twelve steps to within
  half a per mille, which the exact number and its floating-point value both satisfy. Math.round is floor(x + 1/2).

## Where the code and its documentation part

The model follows the code. Each of the following is proved as a lemma or stated by a contract, not only remarked.

- A found path between different nodes always reports `totalDepth` 1, because the query keeps one row
  (`GraphPath.PathIsShortest`). The distance is the `depth` of the last path entry.
- A drift key is compared as a joined string when resolving and field by field when deduplicating. For arbitrary
  findings the two identify the same events only under the condition of `DriftKeys.JoinedFaithfulIff`. No two reports of
  the present detectors join to one string, so every run of the program is accounted for
  (`DriftEmitted.ReportsDiffer`, `DriftEmitted.ProgramRunsAreCounted`). Confusion, with a vanished drift that stays open
  (`DriftKeys.ConfusedKeysStayOpen`), needs findings that no present detector produces.
- On texts over a set of characters the second pattern of the module parser never adds a name the first missed exactly
  when the set has no line terminator (`ModuleTreeRoundTrip.AgreementIff`): a carriage return or Unicode separator left
  inside a line lets it add one. A tree line whose comment repeats the section heading is skipped, and a tree with no other line is read past
  its closing line (`ModuleTreeRoundTrip.ParseRendered`).
- An Ask field is lost when its key or value holds the end marker, and a field named `__proto__` is dropped by the
  object literal (`AskIngestExact.RoundTripIff`).
- The comment on the transition says all three checkpoints; the code quantifies over the rows that exist. A
  recommendation that was never scheduled is assessed by its first checkpoint (`CheckpointRuns.LoneCheckpointAssesses`).
- Every upsert after the third period assesses again and writes both memories again
  (`CheckpointRuns.EveryLaterUpsertIsRemembered`), so reference counts count upserts, not recommendations.
- The update branch of a decision memory keeps its `recommendationId`, so the row names the first recommendation
  assessed for its key while its outcome is that of the latest (`StoreAgreement.OriginIsFirst`,
  `Conservation.ReferencesAreConserved`).
- The two stores are written as one, but others write the agent memories too: a posted memory or an execution trace may
  name a recommendation as its source. Reference counts agree exactly when such references balance the swallowed errors
  (`Conservation.CountsAgreeIff`), and the memory tells the decision's outcome exactly when its last writer did
  (`ForeignWrites.OutcomesAgreeIff`). One posted memory is enough to break both (`ForeignWrites.PostBreaksBoth`).
- Recording an execution is called the real-time path, but posting records COMMITTED executions only. A posted FAILED,
  BLOCKED or ABANDONED one leaves the trust table out of step (`TrustPosting.PostInSyncIff`) until a committed one on the
  same route follows it, or a full refresh (`TrustPosting.PostRunInSyncIff`). Deleting a counted execution does so as well
  (`TrustPosting.DeletionKeepsSyncIff`).
- Comments call the decay monthly; it is scheduled daily, so a memory is light enough to delete after forty days of
  decay (`MemoryDecay.StaleAfterForty`), and only the two-year age limit keeps it.
- The cache key of the context manager omits the tier and joins three fields with ':'. An answer is the fresh answer to
  the first request for its key since the entry last expired, with the tier of that request
  (`ContextCache.AnswerIsFirst`); it always belongs to the agent type, task type and session asked for exactly when no
  agent type continues another across a ':' and no session ends with another after one (`ContextCache.AnswersAreOwnIff`),
  and has the tier asked for exactly when no key is asked for with two tiers (`ContextCache.TiersAreOwnIff`).
- Healing a drift event selects by the last segment of its path. Every execution is related exactly when there is no path
  or it is empty or ends in '/' (`SelfHeal.RelatedToAllIff`), and the path of an undocumented module ends in '/'. No
  scheduler or endpoint of the backend calls it at present.
- Several callers can overlap, so the limit of two retries is not always kept. No service but the retry writes an outcome in place, and
  then it is kept exactly when an eligible execution's count and the number of callers together stay within it
  (`SelfHealRaces.LimitKeptAloneIff`). Should another writer let a retry fail again, it is kept exactly with at most one
  caller (`SelfHealRaces.LimitKeptIff`), and P callers reach P + 1 retries and no more (`SelfHealRaces.RetriesBounded`,
  `SelfHealRaces.BoundIsReached`).
- A retry sets the outcome RETRYING, which recording skips, so the trust table still counts the removed failure
  (`RetryTrust.RetryLeavesTrustStale`).

## Model

| member | source | states |
|---|---|---|
| `Sorting.SortByCorrect` | backend/src/knowledge/services/knowledge-graph.service.ts:293 | the sort behind every ORDER BY rearranges its rows and never lets keys decrease |
| `Sorting.SortByStable` | backend/src/memory/services/memory.service.ts:317-322 | and elements with equal keys keep their order |
| `GraphTables.ImpactRowsAreAllTables` | backend/src/knowledge/services/knowledge-graph.service.ts:279-288 | the impact recursion ends by itself: its answer is the union of all working tables, and from the clamped depth on they are empty |
| `GraphTables.PathRowsAreAllTables` | backend/src/knowledge/services/knowledge-graph.service.ts:370-388 | so does the path recursion, from ten steps on |
| `GraphWalks.WalksOfMembers` | backend/src/knowledge/services/knowledge-graph.service.ts:279-288 | the reference enumeration lists exactly the walks of a length |
| `GraphWalks.WalksOfDistinct` | backend/src/knowledge/services/knowledge-graph.service.ts:279-288 | and lists each of them once, parallel edges and cycles included |
| `GraphImpact.ImpactCountsWalks` | backend/src/knowledge/services/knowledge-graph.service.ts:264-294 | on any multigraph an active node, shown with its six columns, occurs at depth d exactly as often as there are walks of length d: always for d = 1, from 2 to 10 up to the asked depth, and at no other d; inactive nodes are walked through |
| `GraphImpact.ImpactRowsShape` | backend/src/knowledge/services/knowledge-graph.service.ts:255-313 | not found exactly when no node has the identifier; rows are ordered by depth, show the columns of active nodes, and lie at depth 1 or from there to the asked depth and to ten at most; the default depth is three |
| `GraphPath.LoopKeeps` | backend/src/knowledge/services/knowledge-graph.service.ts:378-388 | the visited array never prunes a walk that repeats no node |
| `GraphPath.Shorten` | backend/src/knowledge/services/knowledge-graph.service.ts:386 | every walk has a no longer one to the same node that repeats no node, so pruning loses no shortest walk |
| `GraphPath.PathIsShortest` | backend/src/knowledge/services/knowledge-graph.service.ts:370-426 | for two nodes: found exactly when a walk of length 1 to 10 joins them, the path then shows the columns of both, the last entry has the length of a shortest walk, and totalDepth is 1 |
| `GraphPath.PathEdgeCases` | backend/src/knowledge/services/knowledge-graph.service.ts:329-354 | not found exactly when an end does not exist; the same node gives the one-entry path of depth 0 |
| `GraphPath.QueriesAgree` | backend/src/knowledge/services/knowledge-graph.service.ts:253-431 | the pruned and the unpruned search agree: a node is reported by queryImpact to depth 10 exactly when queryPath finds it, first at the depth queryPath reports |
| `KnowledgeStore.KnowledgeGraphService.constructor` | backend/src/knowledge/services/knowledge-graph.service.ts:24-27 | an empty graph satisfies the keys |
| `KnowledgeStore.KnowledgeGraphService.CreateNode` | backend/src/knowledge/services/knowledge-graph.service.ts:31-53 | conflict on a used identifier and nothing stored; otherwise exactly one row is added, and all keys still hold |
| `KnowledgeStore.KnowledgeGraphService.DeactivateNode` | backend/src/knowledge/services/knowledge-graph.service.ts:143-157 | exactly the named row becomes inactive and is returned, or not found |
| `KnowledgeStore.KnowledgeGraphService.CreateEdge` | backend/src/knowledge/services/knowledge-graph.service.ts:161-199 | missing end, used identifier, or one new edge joining the two named nodes; the foreign keys hold |
| `KnowledgeStore.KnowledgeGraphService.DeleteEdge` | backend/src/knowledge/services/knowledge-graph.service.ts:232-245 | exactly the named edge is gone, and the stored row is returned |
| `KnowledgeStore.DeactivationHidesOneNode` | backend/src/knowledge/services/knowledge-graph.service.ts:289-292 | deactivating a node hides it from queryImpact and changes the multiplicity of no other row |
| `KnowledgeStore.MoreEdgesOnlyShorten` | backend/src/knowledge/services/knowledge-graph.service.ts:370-394 | adding edges never loses a path and never lengthens one |
| `DriftDetector.DriftDetectorService.AutoResolveDrifts` | backend/src/evaluation/services/drift-detector.service.ts:240-277 | exactly the open events whose joined key is not scanned become resolved, nothing else changes |
| `DriftDetector.DriftDetectorService.FindMatchingUnresolved` | backend/src/evaluation/services/drift-detector.service.ts:283-308 | finds an open event with the same detector, title and path exactly when one exists |
| `DriftDetector.DriftDetectorService.RunFullDetection` | backend/src/evaluation/services/drift-detector.service.ts:25-66 | the cycle the run theorems are about; returns exactly the events it appended |
| `DriftRuns.CycleCounts` | backend/src/evaluation/services/drift-detector.service.ts:34-60 | how many events of a key one cycle creates and leaves open, on any table |
| `DriftRuns.CycleOpenKeys` | backend/src/evaluation/services/drift-detector.service.ts:34-60 | a key is open after a cycle exactly when it is scanned, or was open and shares its joined string with a scanned one |
| `DriftRuns.CycleMatchesScan` | backend/src/evaluation/services/drift-detector.service.ts:34-60 | the open keys equal the scan's keys exactly when no open event is mistaken for another key |
| `DriftRuns.SavedAreNewlyOpened` | backend/src/evaluation/services/drift-detector.service.ts:37-65 | the returned events are one for each scanned key that was not open, and no others: each open, detected now, and carrying the first finding of its key |
| `DriftRuns.CycleRows` | backend/src/evaluation/services/drift-detector.service.ts:240-277 | a cycle resolves, at its own time, exactly the open events whose joined string no finding of the scan has, and leaves every other stored event as it is |
| `DriftRuns.RepeatedScanIsSilent` | backend/src/evaluation/services/drift-detector.service.ts:34-60 | repeating a scan changes nothing, whatever the keys |
| `DriftRuns.AtMostOneOpen` | backend/src/evaluation/services/drift-detector.service.ts:39-41 | over every sequence of scans no key ever has two open events |
| `DriftRuns.EventsAreEdges` | backend/src/evaluation/services/drift-detector.service.ts:34-60 | over every sequence of faithful scans a key's events number its rising edges, its resolved events its falling edges |
| `DriftRuns.HistoryIsKept` | backend/src/evaluation/services/drift-detector.service.ts:259-271 | over every run no event disappears, a resolved one never changes, an open one is at most resolved |
| `DriftKeys.JoinedFaithfulIff` | backend/src/evaluation/services/drift-detector.service.ts:252-262 | for non-empty paths the joined strings identify the same events as the fields exactly when no title followed by the separator begins another |
| `DriftKeys.PlainTitlesSeparable` | backend/src/evaluation/services/drift-detector.service.ts:252-262 | titles without "::" that do not end in ':' meet that condition |
| `DriftKeys.EmptyPathConfused` | backend/src/evaluation/services/drift-detector.service.ts:254 | a missing and an empty path join to the same string |
| `DriftKeys.ConfusedKeysStayOpen` | backend/src/evaluation/services/drift-detector.service.ts:260-262 | any two keys that join to one string have a run of two scans whose events are not its edges |
| `DriftKeys.EdgesCountedIffInjective` | backend/src/evaluation/services/drift-detector.service.ts:34-60 | every run over a set of keys is accounted for by edges exactly when the joined strings tell those keys apart |
| `DriftEmitted.ReportsDiffer` | backend/src/evaluation/services/drift-detector.service.ts:123-181 | no two of the reports the detectors can make, for any module names and paths, join to one string |
| `DriftEmitted.ProgramRunsAreCounted` | backend/src/evaluation/services/drift-detector.service.ts:25-66 | so over every run of scans made by the detectors a key's events are exactly its edges and the open keys are the last scan's |
| `DriftEmitted.DetectStructureDrift` | backend/src/evaluation/services/drift-detector.service.ts:111-187 | reports exactly the directories not starting with "__" that the document lacks and the documented names without such a directory, or the one report for an unreadable directory or document |
| `DriftEmitted.OpenReportsAreTheLast` | backend/src/evaluation/services/drift-detector.service.ts:25-66 | after every run the reports with an open event are exactly those of the last scan |
| `DriftEmitted.OpenEventsMatchTheTree` | backend/src/evaluation/services/drift-detector.service.ts:153-184 | after every run a module has an open event exactly when the last scan found its directory without an entry in the document, or the entry without a directory |
| `ModuleTree.MatchAt` | backend/src/evaluation/services/drift-detector.service.ts:345-346 | a match starts at a corner and spans no second one |
| `ModuleTree.ParseDocumentedModules` | backend/src/evaluation/services/drift-detector.service.ts:317-365 | the line loop with its flag and growing set computes the function the round trip is about |
| `ModuleTreePatterns.MatchAtIff` | backend/src/evaluation/services/drift-detector.service.ts:345-346 | the tree pattern matches at a position exactly the texts of a corner, two dashes, blanks, a name and a slash, and captures the name |
| `ModuleTreePatterns.ActiveIff` | backend/src/evaluation/services/drift-detector.service.ts:353-358 | the tail of the second pattern matches exactly where a check mark, blanks and the word follow on the same line |
| `ModuleTreePatterns.NamesAre` | backend/src/evaluation/services/drift-detector.service.ts:344-359 | a line of the section contributes the name of its leftmost match and that of its leftmost match marked active, and no other |
| `ModuleTree.TeeAlternativeIsDead` | backend/src/evaluation/services/drift-detector.service.ts:344-346 | the fallback pattern never matches where the first did not |
| `ModuleTreeRoundTrip.AgreementIff` | backend/src/evaluation/services/drift-detector.service.ts:344-358 | over an alphabet that can write a tree line, the second pattern never adds a name on any text exactly when the alphabet has no line terminator |
| `ModuleTreeRoundTrip.TreeLineParses` | backend/src/evaluation/services/drift-detector.service.ts:322-359 | a rendered tree line yields its name, and starts a section exactly when its comment repeats the heading |
| `ModuleTreeRoundTrip.ParseRendered` | backend/src/evaluation/services/drift-detector.service.ts:317-365 | parsing a rendered tree gives exactly its visible names, whatever stands before and after it and whether a heading, a rule or a fence closes it; with none visible the parser reads on past that line |
| `ModuleTreeRoundTrip.RoundTripIff` | backend/src/evaluation/services/drift-detector.service.ts:317-365 | for any list of entries, the rendered names come back exactly when each has a line whose comment does not repeat the heading, or no line is visible and the following text lists them |
| `ModuleTreeRoundTrip.TerminatorBreaksAgreement` | backend/src/evaluation/services/drift-detector.service.ts:353-358 | each line terminator has a text on which the second pattern adds a name the first missed |
| `AskIngest.ParseStructuredRecord` | backend/src/recommendation/services/ask-ingest.service.ts:36-63 | the parser computes the function the round trip is about, with none for no record or an empty one |
| `AskIngest.ParseBody` | backend/src/recommendation/services/ask-ingest.service.ts:45-60 | the line loop, with its skipped lines and overwritten keys |
| `AskIngestRoundTrip.PrintedLineParses` | backend/src/recommendation/services/ask-ingest.service.ts:46-59 | a quoted value is read back verbatim, colons, quotes and outer blanks included |
| `AskIngestRoundTrip.LineParses` | backend/src/recommendation/services/ask-ingest.service.ts:45-57 | in any line with a colon the blanks around key and value do not count, and neither does one pair of quotes around the value; a value that is one quote only is read as empty |
| `AskIngestRoundTrip.PlainLineParses` | backend/src/recommendation/services/ask-ingest.service.ts:46-59 | a trimmed value without quotes of its own is read back without quotes too, the empty value included |
| `AskIngestRoundTrip.StartFoundAfter` | backend/src/recommendation/services/ask-ingest.service.ts:37-39 | the start marker is found where it was printed, as it cannot overlap an earlier copy of itself |
| `AskIngestRoundTrip.RoundTrip` | backend/src/recommendation/services/ask-ingest.service.ts:36-63 | any printed record without an end marker inside, in any text, parses to its fields |
| `AskIngestRoundTrip.LastWinsAt` | backend/src/recommendation/services/ask-ingest.service.ts:59 | a repeated key has the value of its last line |
| `AskIngestRoundTrip.LastWinsOnly` | backend/src/recommendation/services/ask-ingest.service.ts:59 | no key appears that was not printed, and `__proto__` never does |
| `AskIngestExact.MarkedFieldIsLost` | backend/src/recommendation/services/ask-ingest.service.ts:38 | a record with the end marker inside a key or value never comes back whole |
| `AskIngestExact.RoundTripIff` | backend/src/recommendation/services/ask-ingest.service.ts:36-63 | a printed map comes back whole exactly when no key or value holds the end marker and no key is `__proto__` |
| `Tables.Database.constructor` | backend/prisma/schema.prisma:237-301 | the tables start empty |
| `RecommendationService.Create` | backend/src/recommendation/services/recommendation.service.ts:43-133 | conflict on a used public identifier and nothing stored; otherwise one PENDING row with the given fields, without outcome, is added and no other changes |
| `RecommendationService.UpdateStatus` | backend/src/recommendation/services/recommendation.service.ts:185-225 | the status changes, and leaving PENDING for IN_PROGRESS schedules the three checkpoints |
| `RecommendationService.SetFinalOutcome` | backend/src/recommendation/services/recommendation.service.ts:227-241 | the row becomes ASSESSED with the outcome, which may be any text, or not found |
| `TableEffects.StatusChangeRows` | backend/src/recommendation/services/recommendation.service.ts:185-225 | a status change alters the status only, except that PENDING to IN_PROGRESS dates the three checkpoints 30, 90 and 180 days ahead, keeping what an existing one was assessed as and touching no other |
| `TableEffects.OutcomeRow` | backend/src/recommendation/services/recommendation.service.ts:227-241 | a final outcome leaves the row assessed now, with the outcome its text names or the text itself, and everything else as it was |
| `CheckpointService.CheckAndTransition` | backend/src/recommendation/services/checkpoint.service.ts:174-215 | assesses exactly when every existing row is evaluated, then writes the memories |
| `CheckpointService.UpsertCheckpoint` | backend/src/recommendation/services/checkpoint.service.ts:19-104 | stores the evaluation and tries the transition; an absent verdict keeps a stored one |
| `TableEffects.UpsertRow` | backend/src/recommendation/services/checkpoint.service.ts:32-98 | the upserted checkpoint is evaluated now, keeps its due date and, when none was given, its verdict; every other checkpoint stays |
| `TableEffects.TransitionRow` | backend/src/recommendation/services/checkpoint.service.ts:174-215 | nothing changes while a stored checkpoint of the recommendation is unevaluated; otherwise it is assessed now, FAILURE exactly with a FAILED verdict, else MIXED exactly with a PROBLEM or CONCERN, else SUCCESS |
| `MemoryService.CreateMemory` | backend/src/memory/services/memory.service.ts:28-75 | updates the row of the same source and agent type and raises its count, or adds one; the empty source is not looked up and conflicts |
| `TableEffects.RememberRows` | backend/src/memory/services/memory.service.ts:28-75 | which row is updated, the first of the source and agent type, with every value it then holds; when a row is added and with which values; and that the empty source conflicts exactly when it has a row |
| `MemoryService.RememberKeepsUnique` | backend/src/memory/services/memory.service.ts:32-75 | never two rows for one source and agent type |
| `MemoryService.RememberTouchesOne` | backend/src/memory/services/memory.service.ts:32-74 | an upsert changes at most one row, of the same source, whose identity, weight and creation date stay, or adds one fresh row; a memory without a source is always added |
| `ExecutionMemories.CreateFromExecution` | backend/src/memory/services/memory.service.ts:81-174 | one memory per agent type of the phases, or a conflict exactly when one of them has a memory for the execution, those before it staying |
| `ExecutionMemories.GroupPhases` | backend/src/memory/services/memory.service.ts:111-123 | the agent types in order of appearance, each with the decision of its last phase |
| `ExecutionMemories.AgentsAre` | backend/src/memory/services/memory.service.ts:111-119 | the agent types are those of the phases, each at the place of its first phase |
| `ExecutionMemories.StoreTraces` | backend/src/memory/services/memory.service.ts:121-171 | the creating loop, stopped by the first violated key |
| `ExecutionMemories.TraceExtends` | backend/src/memory/services/memory.service.ts:146-168 | the calls only add rows at the end, each made for the agent type it carries |
| `ExecutionMemories.TracedRows` | backend/src/memory/services/memory.service.ts:96-168 | the added rows are those of the agents in order, up to the first agent that has one already, with every value: the decision of the agent's last phase, MIXED for a retried or flagged commit, success with a commit or in a block that is not the agent's own, and the rest |
| `ExecutionMemories.TraceKeepsUnique` | backend/src/memory/services/memory.service.ts:146-168 | never two rows for one source and agent type |
| `ExecutionMemories.TracedCompleteIff` | backend/src/memory/services/memory.service.ts:119-173 | every agent gets its memory exactly when none of them had one |
| `ExecutionMemories.SecondCallAddsNothing` | backend/src/memory/services/memory.service.ts:119-173 | a second call for an execution with phases always conflicts and adds nothing |
| `DecisionMemoryService.CreateFromAssessment` | backend/src/recommendation/services/decision-memory.service.ts:21-117 | writes both stores for an assessed recommendation, nothing for an abandoned one, an error otherwise; a raising createMemory is swallowed |
| `TableEffects.AssessmentRows` | backend/src/recommendation/services/decision-memory.service.ts:21-117 | both stores are written exactly for an assessed recommendation with an outcome other than none, the empty text and ABANDONED, with every value written; a swallowed error leaves the agent memories alone |
| `Lifecycle.RecIdsStayUnique` | backend/src/recommendation/services/recommendation.service.ts:44-51 | over every run no two recommendations have one public identifier |
| `Conservation.AssessedAccounts` | backend/src/recommendation/services/decision-memory.service.ts:66-114 | one completed assessment is worth one reference in each store, in the decision store only when the other write raised |
| `Conservation.RunAccounts` | backend/src/recommendation/services/decision-memory.service.ts:66-114 | every run, whoever writes agent memories, keeps both stores, their keys, the log of assessments and the foreign references in step |
| `Conservation.ReferencesAreConserved` | backend/src/recommendation/services/decision-memory.service.ts:66-114 | over every run a decision memory's count plus the foreign references is the sum, over the recommendations with its key, of their PLAN memory's count plus one, plus the swallowed errors; its outcome is that of the latest assessment |
| `Conservation.CountsAgreeIff` | backend/src/recommendation/services/decision-memory.service.ts:66-114 | the two stores count the same exactly when foreign references balance the swallowed errors |
| `Conservation.TraceAccounts` | backend/src/memory/services/memory.service.ts:119-173 | an execution trace that stores a PLAN memory about a recommendation is worth two references, and none otherwise |
| `Conservation.OneRowPerSource` | backend/src/memory/services/memory.service.ts:32-54 | over every run at most one row per source and agent type, counting that recommendation's stored assessments and foreign references |
| `Conservation.NoDecisionNoMemory` | backend/src/recommendation/services/decision-memory.service.ts:66-114 | a key without a decision memory has no references but foreign ones |
| `StoreAgreement.RunAgrees` | backend/src/recommendation/services/decision-memory.service.ts:59-80 | over every run the PLAN memory of a recommendation nobody else wrote about tells its last stored assessment, and exists only if there was one |
| `StoreAgreement.StoresAgree` | backend/src/recommendation/services/decision-memory.service.ts:59-114 | over every run without swallowed errors for a key and without foreign writes about its recommendations, one of them has a PLAN memory with the decision memory's outcome, matching success flag, option, domain and project |
| `ForeignWrites.LastWriterDecides` | backend/src/memory/services/memory.service.ts:28-75 | over every run, whoever writes, a PLAN memory says what its last writer said, and is missing if nobody wrote it |
| `ForeignWrites.OutcomesAgreeIff` | backend/src/recommendation/services/decision-memory.service.ts:59-114 | over every run a recommendation's memory tells the outcome of its key's decision memory exactly when its last writer did |
| `ForeignWrites.PostBreaksBoth` | backend/src/memory/memory.controller.ts:40-46 | for every recommendation a run without swallowed errors in which one posted memory makes the counts differ and the memory tell a failure beside a success |
| `StoreAgreement.OriginIsFirst` | backend/src/recommendation/services/decision-memory.service.ts:86-114 | over every run a decision memory names the recommendation assessed first for its key |
| `CheckpointRuns.StatusChangeSchedules` | backend/src/recommendation/services/recommendation.service.ts:190-218 | PENDING to IN_PROGRESS leaves three unevaluated rows due after 30, 90 and 180 days |
| `CheckpointRuns.AssessedWhenComplete` | backend/src/recommendation/services/checkpoint.service.ts:174-204 | over every sequence of upserts, amid any operations on others, a scheduled recommendation is ASSESSED exactly once all three periods are assessed, then and later with the worst current verdict |
| `CheckpointRuns.OrderDoesNotMatter` | backend/src/recommendation/services/checkpoint.service.ts:174-204 | runs that give each period the same verdicts end in the same status and outcome |
| `CheckpointRuns.UpsertAssessesIff` | backend/src/recommendation/services/checkpoint.service.ts:175-181 | without scheduling, an upsert assesses exactly when every other existing row is evaluated |
| `CheckpointRuns.LoneCheckpointAssesses` | backend/src/recommendation/services/checkpoint.service.ts:180-183 | so a first checkpoint of an unscheduled recommendation assesses it |
| `CheckpointRuns.EveryLaterUpsertIsRemembered` | backend/src/recommendation/services/checkpoint.service.ts:100-101 | the completing upsert and every later one, and no other, writes the assessment to memory |
| `MemoryDecay.DecayAll` | backend/src/memory/services/memory.service.ts:391-401 | every weight is multiplied, nothing else changes |
| `MemoryDecay.CleanupStale` | backend/src/memory/services/memory.service.ts:406-419 | the light and old rows go, the others stay in order, and the count is right |
| `MemoryDecay.KeepFreshExactly` | backend/src/memory/services/memory.service.ts:406-419 | a row lighter than 0.1 and created by the threshold is gone, every other is there as often as before |
| `MemoryDecay.DecayAllDecisions` | backend/src/recommendation/services/decision-memory.service.ts:240-263 | decays every weight, then prunes |
| `MemoryDecay.StaleAfterForty` | backend/src/memory/services/memory.service.ts:392-412 | a weight that started at 1 is below 0.1 after n decays exactly when n is at least 40 |
| `MemoryDecay.DecayKeepsOrder` | backend/src/memory/services/memory.service.ts:394-398 | decay preserves the order of weights, both ways |
| `MemoryDecay.AgedRunRows` | backend/src/memory/services/memory.service.ts:28-75 | counting decays beside the rows does not change any run |
| `MemoryDecay.WeightIsAge` | backend/src/memory/services/memory.service.ts:391-401 | over every run, execution traces included, a weight is the factor to the number of decays since creation |
| `MemoryDecay.CleanupDeletesExactly` | backend/src/memory/services/memory.service.ts:406-419 | at any point of any run cleanup deletes exactly the memories decayed at least 40 times that are old enough |
| `MemoryDecay.DecisionWeightIsAge` | backend/src/recommendation/services/decision-memory.service.ts:85-114 | over every run of upserts and decays a decision memory's weight is the factor to the number of its decays, updates included |
| `MemoryDecay.DecisionPrunedExactly` | backend/src/recommendation/services/decision-memory.service.ts:240-263 | at any point of any run a call prunes exactly the decision memories that it decays for at least the fortieth time and that are old enough |
| `TopPatterns.GetTopPatterns` | backend/src/memory/services/memory.service.ts:270-325 | the loop over a Map, the ranking and the slice: as many patterns as asked for or there are, counted from the end for a negative limit, each counting the asked memories of a key at the rate of its successes, best or worst first as asked |
| `TopPatterns.UnrankedShowsKeys` | backend/src/memory/services/memory.service.ts:285-315 | before ranking there is one pattern for each key of the asked memories, in order of first appearance, counting exactly the asked memories and successes with that key, and its rate is successes / total in percent to the nearest hundredth, halves up |
| `TopPatterns.FirstKeysAre` | backend/src/memory/services/memory.service.ts:287-298 | every memory of the asked agent type and task type, the empty task type asking for any, has its key among those, each key once |
| `TopPatterns.RankRearranges` | backend/src/memory/services/memory.service.ts:317-322 | ranking only rearranges the patterns, and those with one rate keep their order |
| `TopPatterns.GroupsPartition` | backend/src/memory/services/memory.service.ts:287-298 | every memory is counted in exactly one group, that of its key; totals and successes sum to those of the memories |
| `TopPatterns.PatternsCount` | backend/src/memory/services/memory.service.ts:300-315 | each pattern counts the memories and successes of its key, at a rate in 0..100 |
| `TopPatterns.PatternsCountNames` | backend/src/memory/services/memory.service.ts:287-315 | when all names split back, each pattern counts exactly the memories and successes with its own task type and domain |
| `TopPatterns.SplitsBackIff` | backend/src/memory/services/memory.service.ts:291-303 | a key splits back to its names exactly when the separator occurs only between them and the domain is not the sentinel |
| `TopPatterns.SplitTakesTwo` | backend/src/memory/services/memory.service.ts:302-303 | of a key with more separators only the first two parts are read, and the domain "__null__" is read as none |
| `TopPatterns.SplittingKeysDiffer` | backend/src/memory/services/memory.service.ts:291-303 | such names are never merged with one another |
| `TopPatterns.KeptBeatDropped` | backend/src/memory/services/memory.service.ts:317-324 | no dropped pattern has a higher rate than a kept one (lower, when failures are asked for), and none is lost |
| `TrustScore.ComputeScore` | backend/src/recommendation/services/trust-score.service.ts:346-368 | the loop computes the rounded Bayesian score |
| `TrustScore.TrustScoreService.UpsertTrustScore` | backend/src/recommendation/services/trust-score.service.ts:37-56 | overwrites the row of the key or adds one |
| `TrustScore.TrustScoreService.RecalculateGlobal` | backend/src/recommendation/services/trust-score.service.ts:62-85 | refreshes the global row from all assessed recommendations and recognised executions |
| `TrustScore.TrustScoreService.RecalculateSingleDecisionType` | backend/src/recommendation/services/trust-score.service.ts:228-249 | refreshes the row of one decision type, of which `TrustTargets.TypeRowShows` tells the content |
| `TrustScore.TrustScoreService.RecalculateByDecisionType` | backend/src/recommendation/services/trust-score.service.ts:91-121 | refreshes the rows of all decision types in turn |
| `TrustScore.TrustScoreService.RecalculateByDomain` | backend/src/recommendation/services/trust-score.service.ts:127-163 | refreshes the row of every domain with an assessed recommendation |
| `TrustScore.TrustScoreService.RecalculateAll` | backend/src/recommendation/services/trust-score.service.ts:26-30 | the three refreshes together are the full refresh the theorems are about |
| `TrustScore.TrustScoreService.RecordExecutionOutcome` | backend/src/recommendation/services/trust-score.service.ts:175-223 | refreshes the global row and that of the route, or nothing for an unknown execution or outcome |
| `TrustTargets.AssessedOutcomesAre` | backend/src/recommendation/services/trust-score.service.ts:94-102 | the outcomes scored for a type or domain hold each outcome exactly as often as an ASSESSED recommendation of that type or domain carries it |
| `TrustTargets.ExecutionOutcomesAre` | backend/src/recommendation/services/trust-score.service.ts:255-300 | the execution outcomes of a route: SUCCESS for each COMMITTED one without retries, MIXED for each with some, FAILURE for each FAILED or BLOCKED, ABANDONED for each ABANDONED, and nothing else |
| `TrustTargets.GlobalRowShows` | backend/src/recommendation/services/trust-score.service.ts:62-85 | after a full refresh of any table the global row counts every assessed recommendation and every finished execution, and its score is the posterior mean under the prior 6, 4, rounded half up |
| `TrustTargets.TypeRowShows` | backend/src/recommendation/services/trust-score.service.ts:91-121 | so does the row of each of the six decision types for the recommendations of that type and the executions routed to it, under its own prior |
| `TrustTargets.DomainRowShows` | backend/src/recommendation/services/trust-score.service.ts:127-163 | and the row of each domain with an assessed recommendation for those of that domain, without executions |
| `TrustTargets.OtherRowsStay` | backend/src/recommendation/services/trust-score.service.ts:26-56 | a full refresh leaves every other row of the table as it is |
| `TrustTargets.RecordedRows` | backend/src/recommendation/services/trust-score.service.ts:175-223 | recording one of the four outcomes brings exactly the global row and the row of a route that is a decision type to what a full refresh gives |
| `TrustTargets.TallySnoc` | backend/src/recommendation/services/trust-score.service.ts:94-120 | what one more recommendation or execution adds to the counts of a row: nothing, or one sample with its own outcome |
| `TrustTargets.OneMoreRecommendation` | backend/src/recommendation/services/trust-score.service.ts:228-249 | one more recommendation of another type, not assessed, or without an outcome leaves a type's row, any other adds one to its sample |
| `TrustSync.InSyncIff` | backend/src/recommendation/services/trust-score.service.ts:26-30 | a full refresh changes nothing exactly when every row it would write is already there |
| `TrustSync.RefreshSynchronises` | backend/src/recommendation/services/trust-score.service.ts:26-30 | one full refresh synchronises any table |
| `TrustSync.UpsertAllUnique` | backend/src/recommendation/services/trust-score.service.ts:37-56 | a full refresh keeps at most one row per level, domain and decision type |
| `TrustSync.RecordedUnique` | backend/src/recommendation/services/trust-score.service.ts:175-223 | so does recording |
| `TrustSync.PartialIsFull` | backend/src/recommendation/services/trust-score.service.ts:203-211 | when data changed on one route only, recording equals a full refresh |
| `TrustSync.InsertionKeepsSync` | backend/src/recommendation/services/trust-score.service.ts:175-275 | recording one inserted execution, with any outcome and route, leaves exactly the fully refreshed table |
| `TrustSync.UpdateKeepsSyncIff` | backend/src/recommendation/services/trust-score.service.ts:194-211 | after an outcome changed in place recording equals a full refresh exactly when the new outcome is recognised or the old one was not |
| `TrustPosting.PostExecution` | backend/src/evaluation/evaluation.controller.ts:42-54 | conflict on a used identifier; otherwise the execution is stored, and recorded when it is COMMITTED |
| `TrustPosting.PostInSyncIff` | backend/src/evaluation/evaluation.controller.ts:45-51 | one post keeps the table in sync exactly when its outcome is none of FAILED, BLOCKED and ABANDONED |
| `TrustPosting.PostRunInSyncIff` | backend/src/evaluation/evaluation.controller.ts:42-54 | after any run of posts the table is in sync exactly when no such execution comes after the last committed one, and for each decision type none on its route after the last committed one on that route |
| `TrustPosting.DeletionKeepsSyncIff` | backend/src/evaluation/services/execution-trace.service.ts:171 | deleting an execution keeps the table in sync exactly when its outcome was not counted |
| `TrustSync.DomainsPartition` | backend/src/recommendation/services/trust-score.service.ts:127-163 | the sample sizes of the refreshed domain rows add up to the assessed recommendations of the global row |
| `TrustArithmetic.ConfiguredPriorsConsistent` | backend/src/recommendation/interfaces/trust-score.interface.ts:55-63 | each configured prior trust is the whole percentage its alpha and beta stand for |
| `TrustArithmetic.ScoreIsRounded` | backend/src/recommendation/services/trust-score.service.ts:350-367 | the branch for no outcomes agrees with the formula |
| `TrustArithmetic.ScoreInRange` | backend/src/recommendation/services/trust-score.service.ts:346-368 | the score is in 0..100 |
| `TrustArithmetic.ScorePermutes` | backend/src/recommendation/services/trust-score.service.ts:354-362 | the order of outcomes does not matter |
| `TrustArithmetic.ImprovingHelps` | backend/src/recommendation/services/trust-score.service.ts:354-367 | improving an outcome never lowers the score |
| `TrustArithmetic.SuccessHelps` | backend/src/recommendation/services/trust-score.service.ts:356-367 | one more success never lowers it |
| `TrustArithmetic.FailureHurts` | backend/src/recommendation/services/trust-score.service.ts:361-367 | one more failure or abandonment never raises it |
| `TrustArithmetic.ShrinkageBound` | backend/src/recommendation/services/trust-score.service.ts:364-367 | the score is within 100 max(alpha, beta)/(n + alpha + beta) + 1/2 of the weighted success percentage |
| `SelfHeal.SelfHealService.constructor` | backend/src/evaluation/services/self-heal.service.ts:10-16 | the service starts on the given executions |
| `SelfHeal.SelfHealService.RetryFailedExecution` | backend/src/evaluation/services/self-heal.service.ts:57-119 | retries exactly the named execution if it FAILED and was retried less than twice, leaving one retry more, RETRYING and no debug result or commit date; says which guard stopped it otherwise |
| `SelfHeal.SelfHealService.RetryEach` | backend/src/evaluation/services/self-heal.service.ts:44-48 | undisturbed, the loop retries each selected execution once and no other |
| `SelfHeal.SelfHealService.RetryAllFailed` | backend/src/evaluation/services/self-heal.service.ts:125-182 | undisturbed, every eligible execution is retried once and nothing is skipped |
| `SelfHeal.SelfHealService.HealDrift` | backend/src/evaluation/services/self-heal.service.ts:23-50 | retries the eligible executions related to an open drift event and counts them; none for a resolved one |
| `SelfHeal.RelatedByLastSegment` | backend/src/evaluation/services/self-heal.service.ts:33-41 | an execution is related to a path exactly when its summary mentions what follows the last '/', or the whole path when there is none |
| `SelfHeal.RelatedToAllIff` | backend/src/evaluation/services/self-heal.service.ts:33-41 | a drift event is related to every execution exactly when its path is missing, empty, or ends in '/' |
| `SelfHealRaces.RetriesBounded` | backend/src/evaluation/services/self-heal.service.ts:57-119 | with P overlapping callers and any changes of outcome, retries made plus retries under way never pass P + 1 |
| `SelfHealRaces.OneCallerKeepsTheLimit` | backend/src/evaluation/services/self-heal.service.ts:82-100 | a single caller never makes more than two retries |
| `SelfHealRaces.WritesAreRetries` | backend/src/evaluation/services/self-heal.service.ts:92-100 | every write is one retry and nothing else changes a retry count |
| `SelfHealRaces.SuccessfulRetriesBounded` | backend/src/evaluation/services/self-heal.service.ts:57-119 | all retries of a run are at most P + 1 minus the initial count, summed over the executions |
| `SelfHealRaces.BoundIsReached` | backend/src/evaluation/services/self-heal.service.ts:63-100 | for every P, from any eligible execution, some interleaving reaches P + 1, given an environment that may fail a retry again |
| `SelfHealRaces.LimitKeptIff` | backend/src/evaluation/services/self-heal.service.ts:57-119 | under such an environment the limit of two is kept in every reachable state exactly when there is at most one caller |
| `SelfHealRaces.RetriesBoundedAlone` | backend/src/evaluation/services/self-heal.service.ts:73-100 | without outcome writes by others each caller retries an execution at most once, made and under way together |
| `SelfHealRaces.LimitKeptAloneIff` | backend/src/evaluation/services/self-heal.service.ts:57-119 | without them the limit of two is kept in every reachable state exactly when the count of the eligible execution and the number of callers together stay within it |
| `SelfHealRaces.UninterruptedRetry` | backend/src/evaluation/services/self-heal.service.ts:63-100 | a read and its write without interruption are the sequential retry |
| `RetryTrust.RetryLeavesTrustStale` | backend/src/evaluation/services/self-heal.service.ts:92-107 | recording a retried execution changes nothing and leaves a synchronised trust table out of step |
| `RetryTrust.RetriesLowerWeight` | backend/src/recommendation/services/trust-score.service.ts:288-300 | a higher retry count keeps an outcome recognised or not, never raises its weight, and turns a success into a mixed outcome |
| `RetryTrust.RetriesNeverHelp` | backend/src/recommendation/services/trust-score.service.ts:255-300 | the same execution with more retries never scores better, globally or for its route |
| `ContextManager.ContextManagerService.Assemble` | backend/src/memory/services/context-manager.service.ts:42-138 | a miss stores and returns a fresh answer that packs the sources of the tier; a hit returns the stored one |
| `ContextManager.FreshPacksTier` | backend/src/memory/services/context-manager.service.ts:42-113 | a fresh answer packs, under 8 000 tokens, the memories; for TIER_2 under 16 000 the memories and the graph; for TIER_3 under 32 000 the rules and documents too: everything when it fits, otherwise, truncated, the longest prefix |
| `ContextManager.ContextManagerService.Expire` | backend/src/memory/services/context-manager.service.ts:131-132 | an expiring entry is dropped, and no other |
| `ContextManager.AddWhileFitting` | backend/src/memory/services/context-manager.service.ts:64-72 | one loop extends the packing until a fragment does not fit |
| `ContextManager.SelectFragments` | backend/src/memory/services/context-manager.service.ts:58-113 | the four staged loops pack the concatenated sources of the tier as one |
| `ContextManager.AddRulesAndDocs` | backend/src/memory/services/context-manager.service.ts:89-113 | the two loops of the third tier |
| `ContextManager.CombineFragments` | backend/src/memory/services/context-manager.service.ts:296-302 | the parts joined with newlines |
| `ContextManager.CombinedJoins` | backend/src/memory/services/context-manager.service.ts:296-302 | each fragment stands under its heading with title and content, and a newline separates it from those before |
| `ContextManager.StoppedIsLongest` | backend/src/memory/services/context-manager.service.ts:58-113 | a greedy stop is the longest prefix that fits |
| `ContextManager.LongestIsUnique` | backend/src/memory/services/context-manager.service.ts:58-113 | and there is only one |
| `ContextManager.HigherTierExtends` | backend/src/memory/services/context-manager.service.ts:58-113 | for the same sources a lower tier's fragments are a prefix of a higher tier's |
| `ContextManager.CombinedLength` | backend/src/memory/services/context-manager.service.ts:296-302 | the exact length of the combined text |
| `ContextManager.CombinedWithinBudget` | backend/src/memory/services/context-manager.service.ts:296-310 | the combined text is at most 4 characters a token, the titles and 14 a fragment, and not much less |
| `ContextManager.ServeTwice` | backend/src/memory/services/context-manager.service.ts:49-55 | a second request with the same cache key gets the first answer, and its own tier only if both asked for it |
| `ContextCache.KeysFaithfulIff` | backend/src/memory/services/context-manager.service.ts:50 | over given agent types and sessions and any task types, equal cache keys mean equal fields exactly when no agent type followed by ':' begins another and no session after a ':' ends another |
| `ContextCache.PlainNamesSeparable` | backend/src/memory/services/context-manager.service.ts:50 | names without ':' meet that condition |
| `ContextCache.FreshIsUnique` | backend/src/memory/services/context-manager.service.ts:57-129 | the conditions on a fresh answer determine it |
| `ContextCache.EntryIsFirst` | backend/src/memory/services/context-manager.service.ts:49-55 | over every run of requests and expiries a cached entry is the fresh answer to the first request for its key since the key was dropped, and a key has none exactly when all its requests were dropped |
| `ContextCache.AnswerIsFirst` | backend/src/memory/services/context-manager.service.ts:49-137 | so every answer is that of the first such request, with its tier, sources and time |
| `ContextCache.AnswersAreOwnIff` | backend/src/memory/services/context-manager.service.ts:49-137 | every answer of every run belongs to the agent type, task type and session asked for exactly under the condition on the keys |
| `ContextCache.TiersAreOwnIff` | backend/src/memory/services/context-manager.service.ts:45-55 | every answer of every run over a set of requests has the tier asked for exactly when requests of the set with one key ask for one tier |
| `ContextCache.Handle` | backend/src/memory/services/context-manager.service.ts:42-138 | one request or expiry performs the step of the runs |
| `ContextCache.Replay` | backend/src/memory/services/context-manager.service.ts:42-138 | the service run over any events gives the cache and the answers the theorems are about |
| `Fallback.FallbackService.constructor` | backend/src/model-registry/services/fallback.service.ts:9-13 | a registry without chains is valid |
| `Fallback.FallbackService.ResolveFallbackChain` | backend/src/model-registry/services/fallback.service.ts:21-112 | the answer the theorems of `FallbackAnswers` are about: one of three errors or the steps |
| `Fallback.FallbackService.CreateFallbackChain` | backend/src/model-registry/services/fallback.service.ts:140-179 | the error cases in order, defaults, and one appended row; keys still hold |
| `Fallback.BuildSteps` | backend/src/model-registry/services/fallback.service.ts:52-99 | the loop with its visited set selects the first three candidates that are active, not the primary, and not repeated |
| `Fallback.ActiveChainsByPriority` | backend/src/model-registry/services/fallback.service.ts:33-44 | the candidates come by ascending priority |
| `Fallback.SelectedShape` | backend/src/model-registry/services/fallback.service.ts:56-99 | selected candidates are eligible, of different models, and in priority order |
| `Fallback.ResolvedChainShape` | backend/src/model-registry/services/fallback.service.ts:53-111 | at most three steps, to different active models, none the primary, by non-decreasing priority |
| `Fallback.EligibleIsResolved` | backend/src/model-registry/services/fallback.service.ts:56-99 | an eligible candidate with fewer than three before it is a step, at that place |
| `FallbackAnswers.CandidatesAre` | backend/src/model-registry/services/fallback.service.ts:33-44 | every stored active chain of the model is considered as often as it is stored, and no other chain is |
| `FallbackAnswers.AnswersWhen` | backend/src/model-registry/services/fallback.service.ts:23-50 | for any stored chains: not found exactly without the model, no chain exactly without an active one for it, no valid steps exactly when none of those leads to another active model, and an answer otherwise |
| `FallbackAnswers.StepsAreUsable` | backend/src/model-registry/services/fallback.service.ts:52-111 | one to three steps, each with the fields of a stored active chain to an active model other than the primary and of that model, to different models, by non-decreasing priority |
| `FallbackAnswers.UsableIsOffered` | backend/src/model-registry/services/fallback.service.ts:56-99 | nothing usable is passed over: the model of every such chain is offered at its priority or before, or three steps of its priority or before are |

## Left out

- RecommendationService.Create: stores the fields that later operations read; the guard that strips analytics keys, options and the descriptive fields are not modelled.
- DriftDetector.DriftDetectorService.RunFullDetection: the findings are a parameter, so its theorems hold for any detectors; `DriftEmitted` models what the present ones report, of which the walk over the files and the line checks are not modelled, and two overlapping detection cycles are not either.
- SelfHeal.SelfHealService.RetryAllFailed: nobody else writes during the sequential loops, so the skipped and error counts are zero; interference is the subject of `SelfHealRaces`, which has no result lists.
- SelfHeal.SelfHealService.RetryFailedExecution: the fire-and-forget metric processing after a retry is left out.
- MemoryService.CreateMemory: confidence, context, lessons and the phase identifier are stored and never decide anything here.
- ContextManager.ContextManagerService.Assemble: the loaders are a parameter, and the five-minute limit is not timed: an entry may expire at any moment.
- DecisionMemoryService.CreateFromAssessment: context factors, the expiry date and the generated memory identifier are stored and never decide anything here.
- CheckpointService.UpsertCheckpoint: only the evaluation date and verdict of a checkpoint are kept.
- TrustArithmetic.ConfiguredPriorsConsistent: `getTrustLabel`, a threshold function, is left out.
- Conservation.ReferencesAreConserved: runs contain no pruning and no deletion of memories or recommendations.
- ExecutionMemories.CreateFromExecution: the derived lessons, the context and agent types outside the enumeration are left out.
- TrustPosting.PostExecution: recording is started without waiting and reads the data later; here it happens at once. It is skipped when writing the memories of the execution fails, which a new execution without phases cannot cause.
- Deleted rows of the trust table and domain rows that no longer have an assessed recommendation: a full refresh does not touch them either.
- `querySimilar` and `queryWithApplicability`: sums of constants followed by a sort.
- `updateNode`, `findNodes`, `findEdges`, `queryNeighbors` and `queryNodes`: one-row updates and filters.
- The order of rows with equal sort keys, which SQL leaves open: a stable sort is modelled, and what is proved about the queries does not depend on ties; only the ranking of patterns does, which is stable in JavaScript.
- Failed database calls and the errors they raise, except the swallowed `createMemory` error and the keys.
- IEEE rounding of weights and scores, and UTF-16 code units: strings are sequences of Unicode characters.
- Modules, controllers, guards, validation decorators, schedulers and logging, authentication, users, lessons and the frontend.
- The accuracy, cost, analytics, executive-review, registry, router and trace services: counts, ratios and thin row access.
