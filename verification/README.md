# Verified model of the check engine and its neighbours

This project models the parts of the agent that decide, remember and bound things, and proves what they
promise. `dafny verify dfyconfig.toml` checks all of it.

- **Checks** (`Digraph`, `CheckPlanner`, `GuardOrder`, `CheckEvidence`, `CheckRuntime`, `CheckTheorems`,
  `CheckVerdicts`). Which checks a change calls for, in which order they run, when recorded evidence may be reused, when
  a check has failed, and what a run does to the ledger and the event log. A run works on any world: fingerprints are
  functions of it, and starting an executor or running a command may change it arbitrarily.
- **World preparation** (`SingleFlight`, `SingleFlightRuns`, `ProcessCache`). Concurrent requests for one Python world share one build.
  Every mutex-protected section is one atomic step of a state machine over any number of requests; sleeping,
  cancellation, a detached worker and the bounded cache are part of it. Why calls stop, what they end with and that all
  of them can finish is proved over whole runs.
- **Prompts** (`PromptCompaction`, `BoundedExcerpt`, `CanonicalJson`, `Decimals`). Folding completed tool groups into receipts,
  shortening one tool result, and the canonical text that arguments are hashed from, with a reader that inverts it.
- **Tool names** (`EditDistance`). The two-row dynamic program, its distance, and the nearest exposed tool.
- **Cache volumes** (`CacheLeases`, `CacheLeaseRuns`). Durable leases of any number of processes on one set of
  records, across crashes and restarts, and garbage collection.
- **Budgets and progress** (`RepositoryBrief`, `HunkContext`, `ProgressGuard`). Fitting a brief into its bound, the
  numbered lines shown around the hunks of a diff, and the guard that warns and blocks when nothing changes.

How it is built. Code of the source that changes state in place is a class or a method with a loop; each is proved
equal to a function of its old state (`Run`, `Attempt`, `AfterInsert`, `Collected`, `Reduce`, `Decide`, `Groups`) or
to a declarative specification, and the theorems are about those. Everything outside (file contents, glob matching,
digests, executors, token counting, serialized length, container runtimes, clocks) is a parameter. Machine words are
64 bits; saturation and wrap-around are written out where the source has them. What such functions compute is stated
a second time without them: by readers that invert a text, by field, by position, or by what was observed in a run.

Findings about the code, each stated by lemmas below:

- The comparator that sorts the roots of the topological sort is transitive on a set of ids if and only if no id
  without a number stands, as text, between two guards whose numbers do not grow the same way
  (`TransitiveIffNotStraddled`, `NumbersAndTextsClash`). The sort's guarantees therefore rest on no root order.
- Reuse after success is not unconditional: a second run reuses everything if and only if the workspace still has the
  recorded fingerprints (`SecondRunReusesAll`). A check that rewrites its own input runs again (`FormatterRunsAgain`);
  a run whose checks do not disturb earlier ones leaves everything current (`GentleRunLeavesAllFresh`).
- Live attachments of all processes together stay on record through failed writes, crashes and starts, for as long as
  no reconciliation clears a volume that some process holds; a reconciliation keeps them if and only if it clears none
  (`StepCoveredIffConsiderate`, `ConsiderateRunsKeepLeases`). So they do in every run that reconciles only when no
  process is up (`EveryRunKeepsLeases`), and no collection then removes a live volume. The code does not see to that:
  the file lock admits several processes, a server reconciles when it starts (src/web.rs:1331), and a verification of
  the environment holds a session meanwhile (src/lib.rs:4183). Its volumes are then on record as idle, and a collection
  past their age removes them while they are in use (`ReconcilingBesideASessionLosesIt`).
- The lease count equals the live attachments only as long as no write is lost: an attachment whose detach fails on
  drop, or an acquisition whose last write fails, leaves a lease or an owner on record until the next reconciliation
  (`StepExactIffLossless`). `reconcile` keeps exact leases exact if and only if nothing is attached or being prepared
  (`ReconcileIsExactIffNothingHeld`).
- A collection that succeeds meets its budget if and only if a condition on the records before it holds
  (`BudgetMetIff`). It does while the size estimates sum to a machine word at most (`BudgetMetWithinWord`); past that
  the sum wraps, and idle volumes can stay whatever the budget (`WrappedTotalHidesExcess`).
- The no-progress guard stops three kinds of failure by the seventh, but four kinds in rotation never
  (`BlockedBySeventhFailure`, `FourKindsAreNeverBlocked`).
- From 410 characters up, and so for every bound computed from the prompt capacity, the shrinking loop of the excerpt
  never shrinks (`ExcerptFits`).
- Two lists of hunks merge to the same ranges if and only if they show the same lines and both or neither keep the
  empty range (`HunkRangesAreCanonical`). That range comes from one header, whose count wraps to nothing
  (`RangesAreProperIff`), and is kept if and only if the header is there and nothing shows line 1. No real diff has
  such a header: its count is the largest machine word but one.
- An accepted prompt leaves room for the generation reserve and the margin of 32 tokens, except one that measures no
  token: it is accepted even if reserve and margin alone exceed the context (`PreparePrompt`, `EmptyMeasurementPasses`).

## Model

| member | source | states |
|---|---|---|
| CheckPlanner.AddCheckDependencies | src/checks.rs:339-353 | Ok is exactly the set of ids the roots reach through `depends_on`, closed and all known; an error names a reached unknown id |
| CheckPlanner.Visit | src/checks.rs:362-389 | the depth-first search keeps its finished list duplicate-free, dependency-closed within the selection and topological; an error has a real cycle or an unknown selected id as witness |
| CheckPlanner.StableTopologicalChecks | src/checks.rs:355-412 | for any root order: Ok lists each selected check once with selected dependencies first; Ok if and only if all ids are known and the selected subgraph has no cycle, self-loops included |
| CheckPlanner.DirectOwners | src/checks.rs:258-278 | the seed of the fixpoint: owners of changed paths, or every component once a path is unowned |
| CheckPlanner.OwnsIff | src/checks.rs:414-421 | without include patterns a component owns the paths whose names begin with those of its root; excluded paths are never owned |
| CheckPlanner.Spread | src/checks.rs:280-297 | one sweep adds only components that depend on affected ones and reports no addition only at a fixpoint |
| CheckPlanner.AffectedComponents | src/checks.rs:280-297 | the least fixpoint: exactly the components that reach a directly affected one |
| CheckPlanner.ReasonsFor | src/checks.rs:301-326 | a check gets reasons exactly when it is triggered, and each reason given is true |
| CheckPlanner.TriggeredChecks | src/checks.rs:299-327 | selects exactly the triggered checks, each with truthful reasons |
| CheckPlanner.PlanChecksForPaths | src/checks.rs:254-337 | a plan is sorted unique paths, least affected set, exact dependency closure of the triggered checks in a valid order, every check explained; an error is an unknown planned id or a cycle among planned checks |
| CheckPlanner.PlanExcludesFailure | src/checks.rs:254-337 | a plan exists only when no planned id is unknown and the planned checks are acyclic: the two errors are exactly the failures |
| CheckPlanner.PlanChecksWithRequired | src/checks.rs:224-252 | adds exactly the closure of the required checks to the base plan, keeps base reasons and adds one per requirement; no change, no addition; each error has its witness |
| CheckPlanner.AddRequired | src/checks.rs:233-242 | selects the required checks too, each requirement adding one reason behind the base reasons, or names a required check that is unknown |
| CheckPlanner.CloseRequired | src/checks.rs:243-251 | closes and schedules base and required checks, giving what they bring in its reason; each error has its witness |
| CheckPlanner.PlanOfUnion | src/checks.rs:254-337 | the planned set of a union of path sets is the union of the planned sets |
| CheckPlanner.AffectedByUnion | src/checks.rs:258-297 | affected components distribute over unions of changed paths |
| CheckPlanner.ScheduledBefore | src/checks.rs:355-412 | in a schedule everything a check depends on, at any depth, stands before it |
| CheckPlanner.ScheduledOffCycles | src/checks.rs:355-412 | no scheduled check depends on itself |
| GuardOrder.NotAfterIsTotal | src/checks.rs:391-400 | the root comparator never contradicts itself on two ids |
| GuardOrder.TransitiveIffNotStraddled | src/checks.rs:391-400 | it is transitive on a set of ids if and only if no unnumbered id stands, as text, between two guards whose numbers do not grow the same way |
| GuardOrder.IndexOfGuard | src/checks.rs:392-395 | the index of a numbered guard is its number, if a word holds it, with or without a plus sign |
| GuardOrder.NumbersAndTextsClash | src/checks.rs:391-400 | numbers 2 and 10 and the text 1x behind the guard prefix form a circle |
| StringOrder.LessIff | src/checks.rs:391-400 | the text order is by the first difference, a prefix before what extends it |
| CheckEvidence.EvidenceSource.Parse | src/checks.rs:27-46 | parsing inverts the label of every source and accepts nothing else |
| CheckEvidence.FromEvents | src/checks.rs:86-131 | the loop folds the events from the left, the last evidence of a check winning |
| CheckEvidence.ResultEventRoundTrip | src/checks.rs:86-131 | an emitted result reads back as its evidence; only a reused one loses its output text and duration |
| CheckEvidence.VisitCurrent | src/checks.rs:157-199 | the recursion ends on every graph; each answer comes with its justification in the dependency closure |
| CheckEvidence.CheckEvidenceIsCurrent | src/checks.rs:151-202 | true if and only if the whole dependency closure is known, fresh and off cycles; false, and each error, has a witness |
| CheckEvidence.CurrentIff | src/checks.rs:133-200 | told by fields: current means that for each check of the closure success, no timeout, command digest, inputs, outputs and each dependency's output (its input if it has none) are as recorded, and no cycle |
| CheckEvidence.ChangedDependencyIsNoticed | src/checks.rs:174-196 | current evidence stops being current once a dependency of its closure shows another output, whatever else happens |
| CheckRuntime.WorkspaceCheckRuntime.EnsureExecutorStarted | src/checks.rs:618-680 | starts an executor lazily and once, reporting unknown and failing ones |
| CheckRuntime.WorkspaceCheckRuntime.ExecuteOne | src/checks.rs:812-876 | the executing branch of the loop equals its specification, errors before recording included |
| CheckRuntime.WorkspaceCheckRuntime.LaunchOne | src/checks.rs:813-876 | running the command and recording what came of it equals its specification, whose verdict `StepReportsCommand` states |
| CheckRuntime.WorkspaceCheckRuntime.RunOne | src/checks.rs:745-877 | one iteration equals the specified step: skip, reuse or execute |
| CheckRuntime.WorkspaceCheckRuntime.RunPlan | src/checks.rs:735-878 | the run loop equals the specified run in world, ledger, executors, events and outcome; `RunVerdict` and `AllSucceededIff` state its verdicts |
| CheckRuntime.WorkspaceCheckRuntime.RunNamed | src/checks.rs:880-899 | Ok with nothing executed if and only if the oracle's condition held beforehand; then exactly the dependency closure is reused and ledger and world are unchanged |
| CheckRuntime.ErrorIsFinal | src/checks.rs:742-878 | after an error the rest of the plan changes nothing |
| CheckRuntime.NothingExecuted | src/checks.rs:735-878 | a run executes nothing without error if and only if every planned check is fresh at its start; then all are reused |
| CheckRuntime.NamedRunExecutesNothing | src/checks.rs:880-899 | for a dependency-closed schedule this coincides with the oracle's answer for the named check |
| CheckRuntime.ExecuteOutcome | src/checks.rs:812-876 | execution either leaves ledger, failures and summary alone and errs, or records evidence of this very run |
| CheckTheorems.RunAccountsForPlan | src/checks.rs:742-877 | an Ok run partitions the plan into executed, reused and skipped; failed are executed; a check is skipped if and only if it depends, at any depth, on a failed one |
| CheckTheorems.SkipDecision | src/checks.rs:751-758 | the local test on direct dependencies equals transitive dependence on an executed failure |
| CheckTheorems.RunReportsFailures | src/checks.rs:759-868 | every run, aborted ones included, reports each failed and each skipped check once, told apart by cause, and no other |
| CheckTheorems.RunStartsNeededExecutors | src/checks.rs:597-680 | an Ok run starts exactly the executors of the checks it executes: neither reuse nor a skip starts one |
| CheckTheorems.SuccessIsEvidenced | src/checks.rs:735-878 | after an all-succeeded run every planned check has evidence that only the workspace could outdate |
| CheckTheorems.SecondRunReusesAll | src/checks.rs:735-878 | running again executes nothing if and only if the recorded fingerprints still hold; then everything is reused and the ledger is kept |
| CheckTheorems.GentleRunLeavesAllFresh | src/checks.rs:735-878 | if no check the run executes, on the world it then meets, disturbs its own or earlier inputs or earlier outputs, an all-succeeded run leaves every check current for the oracle |
| CheckTheorems.FormatterRunsAgain | src/checks.rs:795-812 | a check that rewrites its own input succeeds and still runs again; once its input no longer changes it is reused |
| CheckTheorems.RunMirrors | src/checks.rs:769-876 | in every run, aborted ones included, folding the events gives the live ledger but for output text and duration |
| CheckTheorems.SessionRestores | src/checks.rs:86-131 | the same for any sequence of runs from an empty ledger |
| CheckTheorems.ResumedRunIsTwin | src/checks.rs:133-148 | a runtime resumed from its log behaves as the original: same world, events, summary and errors |
| CheckVerdicts.StepReportsCommand | src/checks.rs:813-876 | an executed check fails if and only if its command exits with another status than zero, times out or leaves a declared output missing; status, timeout, duration, text, inputs, outputs, failure report and event are those of the command |
| CheckVerdicts.StepReportsSkip | src/checks.rs:751-794 | a check with a failed or skipped direct dependency runs nothing and is reported with status 125 and those dependencies |
| CheckVerdicts.StepReportsReuse | src/checks.rs:795-812 | a reused check runs nothing, and its event repeats the recorded result, marked as reused |
| CheckVerdicts.RunVerdict | src/checks.rs:735-878 | in an Ok run a check is failed if and only if it was executed and its command failed, and the ledger tells what the command did |
| CheckVerdicts.AllSucceededIff | src/checks.rs:942-946 | an Ok run has succeeded if and only if no command it executed failed |
| ProcessCache.Find | src/control_layers.rs:1284-1297 | finds an entry exactly when one has the key |
| ProcessCache.LatestMeaning | src/control_layers.rs:1275-1342 | the trace specification lists exactly the last touch of each key, in order of touching |
| ProcessCache.RecentSnoc | src/control_layers.rs:1307-1342 | one more touch drops the key's old entry, evicts the least recent and appends |
| ProcessCache.RecentHasDistinctKeys | src/control_layers.rs:1320-1336 | the cache never holds two worlds of one identity and never exceeds its capacity |
| ProcessCache.FoundIsLookedUp | src/control_layers.rs:1298-1305 | with distinct keys the entry found is the one moved to the back |
| ProcessCache.WorldCache.Lookup | src/control_layers.rs:1275-1305 | after any history the entries are the N most recently touched distinct worlds; a hit touches, a miss does not |
| ProcessCache.WorldCache.Insert | src/control_layers.rs:1307-1342 | the same after an insertion, duplicates and evictions included |
| ProcessCache.WorldCache.EvictFront | src/control_layers.rs:1337-1339 | eviction keeps exactly the most recent entries that leave room for one |
| SingleFlight.PreparationCoordinator.RegisterWait | src/control_layers.rs:877-883 | counts one more waiter unless the count overflows |
| SingleFlight.PreparationCoordinator.FinishWait | src/control_layers.rs:885-894 | hands over the completed world; the last waiter clears both slots |
| SingleFlight.PreparationCoordinator.Publish | src/control_layers.rs:911-923 | stores a hand-off only when someone waits |
| SingleFlight.PreparationCoordinator.Release | src/control_layers.rs:842-852 | dropping the guard frees its key |
| SingleFlight.PreparationCoordinator.BeginOnce | src/control_layers.rs:984-1009 | one turn of the admission loop equals the atomic step of the protocol |
| SingleFlight.StepKeepsCoordinator | src/control_layers.rs:842-1028 | every step of every request or worker keeps the coordinator's bookkeeping |
| SingleFlight.EveryRunKeepsInvariants | src/control_layers.rs:973-1064 | all invariants hold in every state of every interleaving |
| SingleFlight.GuardsAreBounded | src/control_layers.rs:994-1003 | live guards and active keys correspond one to one and never exceed the limit |
| SingleFlight.PythonBuildsAreSerial | src/control_layers.rs:58-58 | with the source's limits at most one Python world is being built at any time |
| SingleFlight.WaitersAreExact | src/control_layers.rs:876-896 | each waiter count is the number of registered calls; hand-offs and counts vanish with the last waiter |
| SingleFlight.WaiterGetsHandoff | src/control_layers.rs:911-1012 | a call registered when its key is published gets that very world or is cancelled; it never becomes an owner |
| SingleFlight.PreparedWorldHasRequestedKey | src/control_layers.rs:464-523 | every preparation that ends with a world ends with one of exactly the requested key |
| SingleFlight.BuildsOfOneKeyAreSeparated | src/control_layers.rs:491-521 | two finished builds of one key have an eviction of that key between them |
| SingleFlight.StepKeepsBuildsNeeded | src/control_layers.rs:497-516 | no build is ever under way for a key that is in the cache |
| SingleFlight.IdleCoordinatorAdmitsWaiter | src/control_layers.rs:983-1012 | once no guard is live a waiter's next turn makes it owner or gives it the world |
| SingleFlightRuns.StoppedIff | src/control_layers.rs:464-523 | a call has stopped if and only if it was cancelled or abandoned, its worker could not be started, it received the failure of its own build, or no further waiter fitted |
| SingleFlightRuns.ReceivedWorldWasBuilt | src/control_layers.rs:1042-1152 | a call that receives a successful build, uncancelled, is done with the very world its own worker put into the cache |
| SingleFlightRuns.BuiltWorldsDiffer | src/control_layers.rs:1055-1066 | no two builds make the same world |
| SingleFlightRuns.DoneWorldHasSource | src/control_layers.rs:464-523 | the world a call ends with is the current one it brought along or stood in the cache at some time |
| SingleFlightRuns.WarmRequestIsServed | src/control_layers.rs:464-500 | a request whose current world or cached world has its key is served at once |
| SingleFlightRuns.EveryRunCanFinish | src/control_layers.rs:464-523 | from every state of every run some continuation without cancellation or failure ends each call with a world, unless it had stopped or its build had failed before |
| EditDistance.EditDistance | src/agent_tool_errors.rs:578-593 | the two-row loop computes the recursive distance |
| EditDistance.DistanceBounds | src/agent_tool_errors.rs:578-593 | between the difference of the lengths and the larger length |
| EditDistance.DistanceZeroIffEqual | src/agent_tool_errors.rs:578-593 | zero if and only if the strings are equal |
| EditDistance.DistanceSymmetric | src/agent_tool_errors.rs:578-593 | symmetric |
| EditDistance.DistanceTriangle | src/agent_tool_errors.rs:578-593 | the triangle inequality |
| EditDistance.ScriptsAreLongEnough | src/agent_tool_errors.rs:578-593 | no script of single-character edits is shorter than the distance |
| EditDistance.ShortestScript | src/agent_tool_errors.rs:578-593 | some script is exactly as long |
| EditDistance.DistanceIsMinimalScript | src/agent_tool_errors.rs:578-593 | so the distance is the least number of insertions, deletions and substitutions |
| EditDistance.LeastCandidate | src/agent_tool_errors.rs:492-498 | the first candidate in order of distance, then name |
| EditDistance.NearestTool | src/agent_tool_errors.rs:491-501 | suggests the lexicographically least nearest name if it is close enough, and nothing when the name is exposed |
| CanonicalJson.WriteCanonicalJson | src/agent_context.rs:156-187 | the recursive writer appends the canonical text, which `PrintReadsBack` shows to be JSON text of the value |
| CanonicalJson.WriteString | src/agent_context.rs:161-161 | appends the quoted and escaped string, which `QuoteReadsBack` shows to name the same characters |
| CanonicalJson.WriteItems | src/agent_context.rs:162-171 | appends the items separated by commas |
| CanonicalJson.WriteMembers | src/agent_context.rs:172-185 | appends the members in sorted key order |
| CanonicalJson.NormalizedArguments | src/agent_context.rs:150-154 | the text that arguments are hashed from reads back as the arguments |
| CanonicalJson.QuoteReadsBack | src/agent_context.rs:161-161 | a reader with the escapes of section 7 of RFC 8259 reads a quoted string back, and what follows it |
| CanonicalJson.EscapeIsShortest | src/agent_context.rs:161-161 | of all escapes that name a character the shortest is written, with small hexadecimal digits, and none where none is needed |
| CanonicalJson.PrintReadsBack | src/agent_context.rs:156-187 | a reader of JSON texts without white space reads the text of a value back as the value up to key order, and what follows it |
| CanonicalJson.QuoteIsUnique | src/agent_context.rs:161-161 | a quoted string in front of any text determines the string and the text |
| CanonicalJson.PrintIsUnique | src/agent_context.rs:156-187 | the text of a value followed by a delimiter determines the value, up to key order, and what follows |
| CanonicalJson.EqualMeaningPrintsEqually | src/agent_context.rs:172-185 | values equal up to key order print the same text |
| CanonicalJson.CanonicalIffSameMeaning | src/agent_context.rs:150-187 | two values have the same canonical text if and only if they are equal up to the order of object keys |
| PromptCompaction.GroupsMeaning | src/agent_context.rs:252-270 | the scan finds exactly the completed groups: an assistant with tool calls and its maximal nonempty run of tool messages, in order and disjoint |
| PromptCompaction.CompletedToolGroups | src/agent_context.rs:252-270 | the index loop computes that list |
| PromptCompaction.FoldsNext | src/agent_context.rs:209-219 | splicing the first group of the current messages folds the next original group and no other; the group count falls by one |
| PromptCompaction.FoldToTarget | src/agent_context.rs:208-221 | the loop ends with the fewest folded groups that meet the target, or all |
| PromptCompaction.PreparePrompt | src/agent_context.rs:75-237 | folds exactly when the prompt measures above 70 percent of what reserve and margin leave, then the fewest first groups that come down to 60, or all; Ok leaves room for reserve and margin, the context-limit error does not |
| PromptCompaction.ReceiptPosition | src/agent_context.rs:208-221 | each folded group has become one user message with the rendered text and metadata, at a known place |
| PromptCompaction.KeptPosition | src/agent_context.rs:208-221 | each other message stands unchanged at a known place |
| PromptCompaction.EmptyMeasurementPasses | src/agent_context.rs:229-237 | a prompt that measures no token is accepted although the reserve does not fit |
| PromptCompaction.FoldCountIsUnique | src/agent_context.rs:203-221 | k, and with it the answer, is determined |
| PromptCompaction.AnchoredToolIsGrouped | src/agent_context.rs:252-270 | when tool messages follow their assistant, each lies in a completed group |
| PromptCompaction.FoldingKeepsAnchors | src/agent_context.rs:208-221 | folding never orphans a tool message |
| BoundedExcerpt.ExcerptAccounts | src/agent_context.rs:119-132 | omitted plus kept equals the original, in characters and in bytes |
| BoundedExcerpt.MarkerLength | src/agent_context.rs:133-135 | the marker has 145 characters and three counters |
| BoundedExcerpt.MarkerTells | src/agent_context.rs:133-135 | each counter stands in front of its unit |
| BoundedExcerpt.Utf8WidthIsEncoded | src/agent_context.rs:123-127 | the bytes counted for a character are the octets of its encoding, which decode to it (section 3 of RFC 3629) |
| BoundedExcerpt.LineCountIsNewlines | src/agent_context.rs:107-132 | lines are counted by newlines, and a last line without one counts too |
| BoundedExcerpt.PlannedParts | src/agent_context.rs:108-118 | 256 characters, or half of a bound below 512, are set aside; the suffix gets a third of the rest |
| BoundedExcerpt.ExcerptLength | src/agent_context.rs:133-137 | with 64-bit lengths the marker adds at most 205 characters |
| BoundedExcerpt.Render | src/agent_context.rs:119-144 | one turn renders a true prefix, the marker and a true suffix |
| BoundedExcerpt.Shrink | src/agent_context.rs:119-147 | the loop ends; it gives up prefix only when the planned excerpt is too long, and stops above the bound only with no prefix left |
| BoundedExcerpt.BoundToolResult | src/agent_context.rs:94-148 | short results pass unchanged; a longer one becomes such an excerpt, its suffix exactly as planned and parts never overlapping |
| BoundedExcerpt.ExcerptFits | src/agent_context.rs:94-148 | from 256 characters up the excerpt fits the bound; from 410 up it is the planned excerpt |
| BoundedExcerpt.CharBudget | src/agent_context.rs:84-92 | callers pass between 512 and 16000 characters |
| BoundedExcerpt.CharBudgetIsThreeEighths | src/agent_context.rs:84-92 | within those limits the budget is three eighths of the usable capacity, rounded down |
| Decimals.DecimalReadsBack | src/agent_context.rs:133-135 | a counter's decimal text reads back as the counter |
| CacheLeases.ByAgeSorts | src/cache_manager.rs:231-231 | the eviction order holds every record once, least recently used first |
| CacheLeases.LoopDecides | src/cache_manager.rs:239-249 | the loop's local test at each position equals what the records before the collection determine |
| CacheLeases.SweepEnds | src/cache_manager.rs:238-266 | the loop carries out exactly that, up to the first removal that fails |
| CacheLeases.CollectionMeaning | src/cache_manager.rs:211-268 | a collection removes every idle record before the first one it keeps, and from there on exactly those over age or quota; a volume or a record file that cannot be removed ends it there |
| CacheLeases.CollectionSpares | src/cache_manager.rs:238-266 | however it ends, only idle volumes and records go; an eligible record removed although an older idle one was kept was over its own quota; on success no idle record over age or quota remains |
| CacheLeases.BudgetMetIff | src/cache_manager.rs:232-267 | on success the rest is within budget or nothing idle remains, if and only if every idle record goes or the true total without those that go is within budget; for all records, sums past a word included |
| CacheLeases.LeftMeetsBudgetIff | src/cache_manager.rs:232-267 | the same for any records left when exactly what was to go is gone |
| CacheLeases.BudgetMetWithinWord | src/cache_manager.rs:232-267 | so it is whenever the size estimates sum to a machine word at most |
| CacheLeases.WrappedTotalHidesExcess | src/cache_manager.rs:232-235 | past a word it can fail whatever the budget: two idle volumes of half a word each stay |
| CacheLeases.RecentlyUsedGoesForSize | src/cache_manager.rs:236-262 | a volume used at or after the cutoff is removed only over its own quota or over the budget |
| CacheLeases.ReleasedIsNotOverAge | src/cache_manager.rs:236-287 | a release renews the volume, so released at or after the cutoff it is not removed for age |
| CacheLeases.ValidateSpec | src/cache_manager.rs:327-339 | a specification is accepted exactly if name, logical id and session have a visible character, the target is absolute and the quota is not zero |
| CacheLeases.CacheManager.Acquire | src/cache_manager.rs:81-158 | succeeds exactly for a valid specification and a matching record on the same runtime, with locks, reads, both writes and the volume working; a failed preparation leaves no owner, a failed last write leaves the owner and no lease |
| CacheLeases.CacheManager.AttachExisting | src/cache_manager.rs:180-197 | adds a lease to a known volume, or fails and changes nothing |
| CacheLeases.CacheManager.Detach | src/cache_manager.rs:274-287 | takes a lease back, saturating at none, or fails and changes nothing; a missing record is no failure |
| CacheLeases.CacheManager.Drop | src/cache_manager.rs:62-66 | a detach that fails goes unnoticed and keeps its lease on record |
| CacheLeases.CacheManager.UpdateSizeEstimate | src/cache_manager.rs:199-209 | changes the size estimate only, or fails and changes nothing |
| CacheLeases.CacheManager.Reconcile | src/cache_manager.rs:160-177 | clears the leases and owners of a prefix of the records: of all of them exactly if every one can be read and written |
| CacheLeases.CacheManager.Gc | src/cache_manager.rs:211-268 | a collection leaves exactly the records, the removed volumes and the answer that `CollectionMeaning` is about |
| CacheLeases.CacheManager.CollectInOrder | src/cache_manager.rs:232-267 | the in-place loop equals the sweep over the sorted snapshot, failing volume and file removals included |
| CacheLeaseRuns.StepCoveredIffConsiderate | src/cache_manager.rs:62-287 | with any number of processes, an event keeps all live attachments on record if and only if it does not reconcile a volume that some process holds; failed last writes, dropped attachments, crashes and starts included |
| CacheLeaseRuns.ConsiderateRunsKeepLeases | src/cache_manager.rs:62-287 | so they stay on record in every run up to the first reconciliation of a volume in use |
| CacheLeaseRuns.EveryRunKeepsLeases | src/cache_manager.rs:62-287 | in every state of every run that reconciles only when no process is up, a volume with live attachments, summed over the processes, has a record that counts at least as many |
| CacheLeaseRuns.CollectionSparesLiveVolumes | src/cache_manager.rs:211-268 | while live attachments are on record, no collection by any process removes a volume that some process holds or changes its record; one that succeeds meets its budget exactly under the condition of `BudgetMetIff` |
| CacheLeaseRuns.ReconcilingBesideASessionLosesIt | src/cache_manager.rs:160-268 | after a start that reconciles beside a session, a collection whose age limit a held volume has passed removes it in use |
| CacheLeaseRuns.LeasesCanBeReturned | src/cache_manager.rs:62-287 | whoever holds a lease can return it, at once or after the acquisition under way has ended; processes can start and crash at any time |
| CacheLeaseRuns.StepExactIffLossless | src/cache_manager.rs:62-287 | an event keeps exact leases exact if and only if it loses no write, kills no process that holds something and reconciles no volume in use |
| CacheLeaseRuns.RestartMakesExact | src/cache_manager.rs:160-177 | a reconciliation with nothing held makes leases exact, whatever was lost before |
| CacheLeaseRuns.LosslessRunsAreExact | src/cache_manager.rs:62-287 | from a reconciliation with nothing held on, leases are exact for as long as nothing is lost |
| CacheLeaseRuns.ExactIdleIffFree | src/cache_manager.rs:238-242 | with exact leases a collection may remove exactly what no session holds |
| CacheLeaseRuns.ReconcileIsExactIffNothingHeld | src/cache_manager.rs:160-177 | forgetting leases keeps them exact if and only if no process holds or prepares a volume |
| RepositoryBrief.ReduceKeepsPrefixes | src/agent_repository.rs:309-381 | every reduction keeps a prefix of each list, with kept plus omitted equal to the original count |
| RepositoryBrief.ShortenedIsHalf | src/agent_repository.rs:319-327 | shortening halves a long excerpt, not below 240 characters, and ends it in an ellipsis |
| RepositoryBrief.ReduceKeepsShape | src/agent_repository.rs:331-377 | sizes are max(min(n, 1), n - r) for one common r until only single items are left; then categories go in the fixed order |
| RepositoryBrief.ReduceMakesProgress | src/agent_repository.rs:309-381 | each reduction loses items or shortens an excerpt, so the loop ends |
| RepositoryBrief.NothingLeft | src/agent_repository.rs:358-380 | the loop gives up only when all nine lists are empty |
| RepositoryBrief.BriefBuilder.PopCounted | src/agent_repository.rs:400-407 | drops the last item and counts it |
| RepositoryBrief.BriefBuilder.PopCountedAbove | src/agent_repository.rs:409-414 | does so only above the minimum |
| RepositoryBrief.BriefBuilder.TrimRound | src/agent_repository.rs:331-357 | trims every category above one item, each once, and reports whether any was |
| RepositoryBrief.BriefBuilder.GiveUpOne | src/agent_repository.rs:363-377 | takes one item of the first nonempty category in the fixed order |
| RepositoryBrief.BriefBuilder.ShortenLastLong | src/agent_repository.rs:311-330 | halves the last long excerpt, not below the minimum |
| RepositoryBrief.BriefBuilder.FitToBound | src/agent_repository.rs:309-389 | always ends; keeps prefixes, counts and even trimming; Ok means within the bound; fails for size only with nothing left; reduces only while too long |
| HunkContext.NewHunkRanges | src/agent_repository.rs:968-1001 | the ranges of the hunks that add lines, sorted and merged; `MergedRangesShow` states what they cover |
| HunkContext.MergedRangesShow | src/agent_repository.rs:968-1001 | a line is covered if and only if it is within three lines of an added one; only the two largest counts, whose sum wraps, are told apart |
| HunkContext.MergeRanges | src/agent_repository.rs:990-1000 | the in-place merging loop equals the fold |
| HunkContext.MergeSeparates | src/agent_repository.rs:990-1000 | an uncovered line lies between any two merged ranges |
| HunkContext.MergeCovers | src/agent_repository.rs:990-1000 | merging covers exactly the lines covered before |
| HunkContext.SeparatedIsCanonical | src/agent_repository.rs:990-1000 | separated ranges are determined by the lines they cover |
| HunkContext.RangesAreProperIff | src/agent_repository.rs:983-986 | every range has a line, except that of the one header whose count wraps to nothing |
| HunkContext.MergedForm | src/agent_repository.rs:968-1000 | the merged ranges of any headers are separated nonempty ranges that cover the same lines, behind the empty range if that is listed and nothing covers line 1 |
| HunkContext.HunkRangesAreCanonical | src/agent_repository.rs:968-1001 | any two lists of hunks merge to the same ranges if and only if they show the same lines and both or neither keep the empty range, whatever their order and overlap |
| HunkContext.EmptyContextIsNotCanonical | src/agent_repository.rs:983-1000 | alone, the empty range of that header shows nothing and is still kept |
| HunkContext.RenderRange | src/agent_repository.rs:1013-1029 | the inner loop emits the unseen lines of one range until the budget stops it |
| HunkContext.RenderHunkContext | src/agent_repository.rs:1003-1038 | the nested loops produce the specified page for any ranges, overlapping ones included |
| HunkContext.EmitShows | src/agent_repository.rs:1010-1031 | a page shows each requested line once, in order of first request: all, or the longest prefix within the budget, and then names the first line not shown |
| HunkContext.MergedContextShows | src/agent_repository.rs:968-1038 | for any list of hunks the page shows exactly the lines within three lines of an added one, or the whole text if no hunk adds lines, ascending, up to the budget |
| ProgressGuard.WarnedBeforeBlocked | src/agent_progress.rs:161-187 | every block comes after a warning on the second failure |
| ProgressGuard.BlockedBySeventhFailure | src/agent_progress.rs:161-176 | at most three kinds of failure are blocked by the seventh |
| ProgressGuard.SixFailuresMayPass | src/agent_progress.rs:161-176 | six need not be, so seven is tight |
| ProgressGuard.FourKindsAreNeverBlocked | src/agent_progress.rs:157-176 | four kinds in rotation are never blocked, however long the run |
| ProgressGuard.DecideMeaning | src/agent_progress.rs:157-169 | the eight-entry window decides as the whole history since the reset does, but for the count it bounds |
| ProgressGuard.SameKindIff | src/agent_progress.rs:145-148 | failures are of one kind if and only if tool family and outcome fingerprint agree |
| ProgressGuard.BlocksIff | src/agent_progress.rs:161-176 | a failure stops the run if and only if three of the latest eight are of its kind or it alternates with another kind |
| ProgressGuard.AlternationIsBlocked | src/agent_progress.rs:166-176 | failures of kinds A, B, A stop the run at the third, whatever came before |
| ProgressGuard.ProgressGuard.Record | src/agent_progress.rs:134-190 | the answer depends only on the failures since the latest success or change of state; `warned` holds if and only if at least two are retained |
| ProgressGuard.ProgressGuard.Retain | src/agent_progress.rs:156-159 | the window holds the latest eight failures |
| ProgressGuard.ProgressGuard.Preflight | src/agent_progress.rs:54-132 | a new state resets and proceeds; otherwise nothing changes, and redirect and block are answered exactly under their conditions |
| ProgressGuard.RepeatsReplayIff | src/agent_progress.rs:66-70 | a read repeats a replay if the previous call was answered from the cache for the same request |
| ProgressGuard.RepeatsEmptyReadIff | src/agent_progress.rs:96-102 | a read repeats an empty one if the previous call was for the same path, known to be empty or answered from the cache |

## Left out

- Executors, containers, subprocesses and file walking: functions of the world that may fail; their kinds and how they start are not modelled.
- Fingerprints, digests and glob matching: arbitrary functions; SHA-256, glob syntax and symlink handling are not modelled.
- What sorting does with a comparator that is not transitive: the topological sort is proved for any order of its roots; the order among independent checks is not modelled.
- Check, component and executor ids inside their records: they equal the map keys by construction of the graph.
- Event fields nesting depth, timestamp and executor kind, and the wording of skip, reuse and error messages.
- Mutex poisoning, clocks and the length of waits: a sleeping request may wake at any step.
- The Rust world path: its shared handles change their source digest in place, so the identity claims are proved for Python worlds only; in-place refresh and dependency capture are not modelled.
- The context receipt's text and metadata, and token counting: a renderer and a measure that are functions of the messages.
- PromptCompaction.PreparePrompt: the sum of omitted characters is unbounded here and could overflow a word in the source; the size sections of the context-limit error are not modelled.
- How JSON numbers are rendered: a number is its decimal text.
- CanonicalJson.PrintReadsBack: its reader knows no white space between tokens and no surrogate pairs, as the writer emits neither.
- ProgressGuard.SameKindIff: for outcome fingerprints without a colon, as hexadecimal digests are.
- The digest inside the shortening marker: a parameter of 64 characters. A line ends at a newline as in the source; stripping carriage returns does not change the count.
- BoundedExcerpt.ExcerptFits: stated for texts whose byte length fits a machine word, as every text in memory does.
- EditDistance.LeastCandidate: takes the first in sorted order by a search instead of sorting a list of pairs.
- EditDistance.EditDistance: strings are sequences of characters; bytes do not occur.
- The schema validator for tool arguments, and rendering of tool failures.
- Cache record files: their text, versions and temporary files; a record that cannot be read is one answer of storage, and distinct volumes have distinct record paths.
- CacheLeases.CacheManager.Gc: a runtime lookup that fails counts as a volume that cannot be removed; which volumes exist in the runtime besides those removed is not tracked.
- CacheLeaseRuns.EveryRunKeepsLeases: runs that reconcile only when no process is up, as others lose leases (`StepCoveredIffConsiderate` says exactly which events do); fewer live attachments of a volume than a word counts.
- RepositoryBrief.BriefBuilder.FitToBound: entries other than instruction excerpts are opaque; counters are assumed not to saturate, which needs lists longer than memory. Building the brief is not modelled.
- Reading hunk headers from the text of a diff, change manifests and diffs themselves.
- How tool families, outcome summaries and fingerprints are derived from tool results in the progress guard.
- Managed commits, semantic world analysis, energy accounting, configuration parsing, the command-line and web interfaces: outside this model.
