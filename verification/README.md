# Verified models of Yantra's protocols, guards and scorers

This project models the state, log, codec and scoring algorithms of Yantra's command line, its static
check and its task-fidelity harness in Dafny 4.11, and proves what those algorithms promise.
`dafny verify dfyconfig.toml` checks everything.

One file per component:

- `Relocation.dfy`: moving the data directory, step by step over a disk where any call can fail and
  copies and removals can stop anywhere; safety of every intermediate state.
- `Der.dfy`: DER lengths, tag-length-value trees and object identifiers, against a strict reader.
- `SearchProvider.dfy`: overlapping search calls, the concurrency peaks kept online, fault selection.
- `ImportClosure.dfy`, `SanitizeWalk.dfy`: the worklist over relative imports and the pruned tree walk
  of the static check, against declarative reachability.
- `ScriptedSession.dfy`: the resumable, abortable script interpreter with parallel steps.
- `StructuralMatch.dfy`, `ExpectationLedger.dfy`: structural comparison, and the owner ratchet with
  its census.
- `ToolCallSummary.dfy`: folding an out-of-order log into one row per call.
- `ActionScore.dfy`: latest form states, grouped rules, and the verdict on a form task.
- `Normalize.dfy`, `Stability.dfy`, `Percentile.dfy`, `Benchmark.dfy`: the scorer's normalization and
  the aggregate measures.
- `Listing.dfy`: filters in links, facet counts and pages of the listing fixtures.
- `Sorting.dfy`, `Common.dfy`: stable sorting, optional values and ASCII text, shared by the rest.

Code that works by changing things is a class or a method with loops, proved equal to a specification
function or predicate; what the program promises is then proved about that specification. Where a
property turned out to hold only under a condition, the condition is proved to be exact:

- **A relocation into an ancestor of the data directory can lose files.** The command refuses a target
  inside the source but not the other way round. `LandsBackIff` says which files are at risk: those
  whose path below the source begins with the segments that lead from the target to the source.
  `RunDataDir` proves that every state is safe when there are none, and that a completed move is safe
  only then. `RunLandingBack` runs the smallest loss: the command succeeds and the disk is empty.
- **A configuration write can fail after it took effect.** The configuration file is renamed into place
  and its permissions are changed afterwards; if that last call fails, the command moves the data back
  although the configuration already names the target. `RunDataDir` proves for every move to a
  target not named before that the configuration ends up naming one that does not hold everything if and only if the run reached
  the commit and either a file landed back, or the write failed late, the rename back went through and
  there was anything to hold (`Misnames`, `RollsBack`). `RunStranding` runs the smallest such case.
- **The last removal of the managed browser tree has nothing to remove**: a move that left the tree out
  of the copy has removed the whole source by then (`DropManaged`).
- **Object identifier arcs from 2^31 on do not survive**, nor do first pairs that need more than one
  octet (`ArcRoundTripIff`, `OidRoundTripIff`).
- **`containsShape` is transitive exactly at shapes without undefined fields** (`TransitiveIff`), and
  mutual containment is equality up to undefined fields, for all values (`MutualIff`).
- **Removing `current` from the pending set changes nothing**; removing any other owner spoils a clean
  census (`RemovalSpoilsCensusIff`).
- **A facet count is honest exactly when no matching item differs from the facet value in case alone**
  (`CountIsHonestIff`); a link gives its filters back exactly when none is empty (`LinkRoundTripIff`).
- **The stability measures of two or more runs disagree in two cases and no other**: one set with
  several joins, which takes a repeated key, or one join with several sets, which takes a bar in a key
  (`MeasuresDisagreeIff` and its two special cases). What the scorer delivers has no repeated keys, so
  bar-free ids are enough (`ScoredRunsAgree`).

## Model

| member | source | states |
|---|---|---|
| Relocation.Disk.RunDataDir | apps/cli/src/commands/config.ts:304-418 | For every way the calls of one run can end: the checks alone decide between refusing, planning and acting, and nothing is touched by a dry run, under a lock or in managed use, for a bad target or without `--force` where files are; the run completes if and only if checks, move and configuration write do; every run that reaches the write ends, path by path, with each file below the source at its place below the target, the browsers among them unless they are on another volume, or else back home; unless a file lands back in the source, every state passed through loses no file; a completed move is safe if and only if none lands back; on the way the configuration names the target only while the target holds everything, except after a late write failure and the rollback; in the end it names one that does not if and only if that happened with anything to hold, or a file landed back |
| Relocation.ArrivedDelivers | apps/cli/src/commands/config.ts:381-388 | What arriving means for each path: moved files, files elsewhere, files of the target |
| Relocation.CopyLeavesBrowsers | apps/cli/src/commands/config.ts:433-437 | With the managed tree excluded no file below it is copied, whatever the copy reaches |
| Relocation.Disk.Relocate | apps/cli/src/commands/config.ts:381-407 | The same for the part after the checks, from any disk and any plan that the checks let through: completion, stranding and the final setting, each if and only if |
| Relocation.Disk.MoveDirectory | apps/cli/src/commands/config.ts:420-478 | Rename, cross-device fallback, copy and remove: it succeeds if and only if one of the ways goes through to its end; success means the source is empty; unless a file lands back, every intermediate state is safe and success means everything arrived |
| Relocation.Disk.Copy | apps/cli/src/commands/config.ts:446-449 | A copy that may stop after any file leaves the source untouched; it succeeds if and only if it reached every file outside the excluded subtree and was not cut short, and has then, unless one landed back, delivered them all |
| Relocation.Disk.Remove | apps/cli/src/commands/config.ts:449-449 | Exactly the files reached below the root go; it succeeds if and only if it reached all of them and was not cut short; once everything arrived, removing any part of the source, in any order, keeps it so |
| Relocation.Disk.Rename | apps/cli/src/commands/config.ts:458-460 | A directory rename is one step that moves every path below the directory |
| Relocation.Disk.Configure | packages/core/src/config/write.ts:20-57 | The write replaces the setting in one step, and can still report failure after that step |
| Relocation.Disk.Commit | apps/cli/src/commands/config.ts:389-408 | Writing the setting, rolling back, and dropping the managed subtree: when the write stands, when the data goes back, and when it is stranded, each if and only if |
| Relocation.Disk.RollBack | apps/cli/src/commands/config.ts:394-395 | A rollback brings every file home and leaves the target empty |
| Relocation.Disk.DropManaged | apps/cli/src/commands/config.ts:402-408 | The last cleanup finds nothing left: the files are as before |
| Relocation.CopyStep | apps/cli/src/commands/config.ts:446-449 | Copying one file keeps all sources, guests and outside files in place |
| Relocation.RemoveStep | apps/cli/src/commands/config.ts:477-477 | Removing one source file keeps the target complete |
| Relocation.RenameArrives | apps/cli/src/commands/config.ts:458-460 | A rename delivers everything at once, and can only happen when no file lands back |
| Relocation.RollbackIsSafe | apps/cli/src/commands/config.ts:392-395 | Renaming back loses nothing, including files that were in the target before |
| Relocation.RollbackMeansNoLandingBack | apps/cli/src/commands/config.ts:392-395 | Where renaming back is possible at all, no file landed back |
| Relocation.WhereItEnds | apps/cli/src/commands/config.ts:389-400 | After the commit everything is safe and arrived if and only if no file landed back; after a rollback the target holds everything only if it owed nothing |
| Relocation.LandingBackLoses | apps/cli/src/commands/config.ts:318-325 | With the source emptied, a file whose destination is inside the source is gone |
| Relocation.LandsBackIff | apps/cli/src/commands/config.ts:318-325 | Files land back exactly when the target is an ancestor and some path repeats the segments in between |
| Relocation.RunLandingBack | apps/cli/src/commands/config.ts:318-325 | One run of the command, from a disk with one file to a reported success with none |
| Relocation.RunStranding | apps/cli/src/commands/config.ts:389-400 | One run of the command that fails, with the configuration naming an empty target and the file back in the source |
| Relocation.RolledBackIsNotArrived | apps/cli/src/commands/config.ts:392-395 | After a rollback the target holds everything if and only if it owed nothing |
| Relocation.FoldKeepsPrefix | apps/cli/src/commands/config.ts:318-325 | The case-blind refusal covers every target inside the source |
| Relocation.OnSameVolume | apps/cli/src/commands/config.ts:279-295 | The walk up terminates and compares the source's volume with that of the target's nearest existing ancestor |
| Relocation.DecideManagedTree | apps/cli/src/commands/config.ts:245-270 | The managed tree is dropped exactly when it is a directory that is not on the volume the target will be on |
| Der.LengthOctets | e2e/task-fidelity/fixtures/tls.ts:79-84 | The unshift loop writes the big-endian base-256 numeral behind its count |
| Der.LengthRoundTrip | e2e/task-fidelity/fixtures/tls.ts:79-84 | Every length up to 2^53 - 1 is read back, whatever follows |
| Der.LengthIsMinimal | e2e/task-fidelity/fixtures/tls.ts:79-84 | X.690 section 10.1: among all definite encodings of a size the one written is the unique shortest |
| Der.LengthIsCanonical | e2e/task-fidelity/fixtures/tls.ts:79-84 | Whatever a strict reader accepts is exactly what would have been written |
| Der.TlvFront | e2e/task-fidelity/fixtures/tls.ts:74-77 | An item starts with its tag and the size of the concatenated contents, then the contents |
| Der.RoundTrip | e2e/task-fidelity/fixtures/tls.ts:74-108 | A nested value followed by anything is read back as that value and that rest |
| Der.RoundTripAll | e2e/task-fidelity/fixtures/tls.ts:74-92 | The contents of a sequence or set are read back as exactly its items |
| Der.DecodeIsCanonical | e2e/task-fidelity/fixtures/tls.ts:74-108 | Every octet string that reads as a value is the encoding of that value |
| Der.UniqueParse | e2e/task-fidelity/fixtures/tls.ts:74-108 | No encoding is a prefix of another, and encoding is injective |
| Der.ArcOctets | e2e/task-fidelity/fixtures/tls.ts:113-117 | The loop over one arc, with 32-bit shifts, writes base-128 digits with continuation bits |
| Der.OidOctets | e2e/task-fidelity/fixtures/tls.ts:110-119 | The loop over all arcs writes the whole identifier: a strict reader finds one item of universal tag number 6 and in it the arcs, if and only if they fit |
| Der.OidIsRead | e2e/task-fidelity/fixtures/tls.ts:110-119 | The same with anything behind it |
| Der.SimpleIsRead | e2e/task-fidelity/fixtures/tls.ts:94-108 | Integers, octet strings, texts and times are read back under their universal tag numbers |
| Der.GroupIsRead | e2e/task-fidelity/fixtures/tls.ts:86-92 | Sequences and sets are read back as constructed items 16 and 17 with exactly their contents |
| Der.ArcRoundTripIff | e2e/task-fidelity/fixtures/tls.ts:113-117 | An arc is read back if and only if it is below 2^31 |
| Der.ArcsRead | e2e/task-fidelity/fixtures/tls.ts:113-117 | A list of arcs always reads as as many numbers, equal to the arcs if and only if all are below 2^31 |
| Der.OidRoundTripIff | e2e/task-fidelity/fixtures/tls.ts:110-119 | An identifier is read back if and only if its first two arcs share one octet below 128 and the others are below 2^31 |
| SearchProvider.PeakDuringBounds | e2e/task-fidelity/search/scripted-provider.ts:74-75 | The history's peak of a call bounds the in-flight count at every moment of the call |
| SearchProvider.PeakDuringReached | e2e/task-fidelity/search/scripted-provider.ts:74-75 | ... and is the count at one of them |
| SearchProvider.PeakOverallBounds | e2e/task-fidelity/search/scripted-provider.ts:156-159 | The history's overall peak bounds the in-flight count at every moment |
| SearchProvider.PeakOverallReached | e2e/task-fidelity/search/scripted-provider.ts:156-159 | ... and is the count at one of them |
| SearchProvider.PeakAtEnd | e2e/task-fidelity/search/scripted-provider.ts:145-148 | Ending a call changes no peak, so updating only at begins is enough |
| SearchProvider.BeginKeepsExact | e2e/task-fidelity/search/scripted-provider.ts:137-142 | Raising the peaks of the calls in flight to the new count keeps every record equal to what the history says |
| SearchProvider.EndKeepsCall | e2e/task-fidelity/search/scripted-provider.ts:145-148 | Removing a call keeps every record equal to what the history says |
| SearchProvider.OverallIsSomeCall | e2e/task-fidelity/search/scripted-provider.ts:157-159 | The overall peak is the largest peak of any call |
| SearchProvider.QuietIff | e2e/task-fidelity/search/scripted-provider.ts:137-142 | At most one call was ever in flight if and only if every call began alone |
| SearchProvider.FaultForIs | e2e/task-fidelity/search/scripted-provider.ts:238-247 | The fault is the first that is for overlapping calls, if this one overlaps, or that lists the call's number, and none only if no fault does |
| SearchProvider.FindFault | e2e/task-fidelity/search/scripted-provider.ts:238-247 | The loop returns that fault |
| SearchProvider.PeakTellsChallenges | e2e/task-fidelity/search/scripted-provider.ts:137-188 | With only the concurrency fault and positive limits, the peak is at most one if and only if no call was challenged; also exactly what remains without positive limits |
| SearchProvider.Provider.Begin | e2e/task-fidelity/search/scripted-provider.ts:124-144 | Starting a call keeps the log exact and decides its fault from the calls in flight before it |
| SearchProvider.Provider.Observe | e2e/task-fidelity/search/scripted-provider.ts:140-142 | The loop raises exactly the peaks of the calls in flight |
| SearchProvider.Provider.Answer | e2e/task-fidelity/search/scripted-provider.ts:169-213 | Discovery requests, faults and waits, in the order of the branches |
| SearchProvider.Provider.Settle | e2e/task-fidelity/search/scripted-provider.ts:197-227 | What an abort, a timeout or a lookup makes of a waiting call |
| SearchProvider.Provider.End | e2e/task-fidelity/search/scripted-provider.ts:145-148 | Ending a call keeps the log exact |
| SearchProvider.Provider.PeakConcurrency | e2e/task-fidelity/search/scripted-provider.ts:157-159 | The reported peak is the run's maximum |
| ImportClosure.ScanFile | scripts/ci-static-check.ts:251-275 | One file's imports: exactly the restricted ones are reported, exactly the others with a target are queued |
| ImportClosure.Walk | scripts/ci-static-check.ts:232-276 | The worklist terminates on cyclic graphs and reports exactly the offending imports of the modules it reaches, each once |
| ImportClosure.CheckImports | scripts/ci-static-check.ts:220-280 | All existing entrypoints in turn; missing ones are passed over |
| ImportClosure.LlmPayloadCleanIff | scripts/ci-static-check.ts:214-280 | Nothing is reported if and only if no chain of one or more relative imports reaches a file under a directory `index-db`, though those are never followed |
| ImportClosure.IndexDbIff | scripts/ci-static-check.ts:132-139 | The test on prefixes and substrings finds exactly the files under such a directory |
| ImportClosure.RestrictedPackageIff | scripts/ci-static-check.ts:141-152 | Restricted are the specifiers whose first segment is one of five names, and no others |
| ImportClosure.OffendsIff | scripts/ci-static-check.ts:251-275 | What is reported, in terms of the imports themselves |
| ImportClosure.CheckLlmPayloadImports | scripts/ci-static-check.ts:220-280 | The whole guard: no violation if and only if no existing entrypoint reaches such a file |
| ImportClosure.CheckJsonPathImports | scripts/ci-static-check.ts:289-351 | The whole guard: no violation if and only if no file reached, entrypoints included, imports one of the packages |
| ImportClosure.CleanChainIsWalked | scripts/ci-static-check.ts:260-274 | With nothing to report, pruning loses no chain |
| ImportClosure.RestrictedIsBare | scripts/ci-static-check.ts:324-340 | Reporting a package instead of following it hides no relative import |
| ImportClosure.JsonPathCleanIff | scripts/ci-static-check.ts:289-351 | Nothing is reported if and only if no module on any chain, the entrypoint included, imports a rendering package |
| SanitizeWalk.Visit | scripts/ci-static-check.ts:610-631 | The pruned walk finds a sanitize call if and only if one is there, starts early enough and is not inside a nested function |
| SanitizeWalk.SanitizesIff | scripts/ci-static-check.ts:615-628 | When nodes start no earlier than their parents, pruning at the target's position loses nothing |
| SanitizeWalk.FindEnclosingFunction | scripts/ci-static-check.ts:585-596 | The climb stops at the nearest function around the send, or at the file |
| SanitizeWalk.HasSanitizeBeforeSend | scripts/ci-static-check.ts:598-633 | The guard accepts a send if and only if its enclosing function's body sanitizes before it |
| ScriptedSession.Session.Prompt | e2e/task-fidelity/agent/scripted-provider.ts:298-304 | A prompt resumes where the script stopped and clears the abort |
| ScriptedSession.Session.BeginStep | e2e/task-fidelity/agent/scripted-provider.ts:306-308 | The steps begun are always a prefix of the script, across prompts and aborts; one iteration begins exactly the next one, adds the fates of its leaves, in script order, and waits for its thinking steps |
| ScriptedSession.Session.Execute | e2e/task-fidelity/agent/scripted-provider.ts:191-221 | All leaves of a step, nested parallel ones included, begin once, each meets the fate that guard, resolver and catalog decide, every thinking step announces a turn and waits, and the clock moves by what the step asks |
| ScriptedSession.Session.BeginThinking | e2e/task-fidelity/agent/scripted-provider.ts:192-206 | A thinking step emits `turn_started` and waits, and can be woken |
| ScriptedSession.Session.EndThinking | e2e/task-fidelity/agent/scripted-provider.ts:196-204 | A timer ends one thinking step, and none can be woken after it |
| ScriptedSession.Session.ExecuteAll | e2e/task-fidelity/agent/scripted-provider.ts:216-221 | The same for the branches of a parallel step together |
| ScriptedSession.Session.BeginCall | e2e/task-fidelity/agent/scripted-provider.ts:222-249 | A leaf is skipped, unreachable or started, by the guard, the resolver and the catalog in that order; only a started one takes a call id and emits |
| ScriptedSession.Session.StartCall | e2e/task-fidelity/agent/scripted-provider.ts:239-249 | A started call takes the next id, emits its three events in order and puts its leaf in flight |
| ScriptedSession.Session.FinishCall | e2e/task-fidelity/agent/scripted-provider.ts:251-274 | Calls return in any order; each moves from in flight to received |
| ScriptedSession.Session.Abort | e2e/task-fidelity/agent/scripted-provider.ts:292-296 | An abort at any moment keeps all accounts and ends the thinking step begun last, if none has ended since |
| ScriptedSession.Session.EndStep | e2e/task-fidelity/agent/scripted-provider.ts:309-315 | A turn is counted and announced unless the step was a clock or latch step |
| ScriptedSession.Session.Return | e2e/task-fidelity/agent/scripted-provider.ts:306-324 | When a prompt returns, every leaf of the steps run so far was received, unreachable or skipped, exactly once |
| ScriptedSession.EventsPairUp | e2e/task-fidelity/agent/scripted-provider.ts:241-261 | In any orderly event log: one start per call id, one finish per call not in flight, one turn event per turn |
| ScriptedSession.StartComesFirst | e2e/task-fidelity/agent/scripted-provider.ts:241-261 | Every finish follows the start of the same call |
| ScriptedSession.EachCallOnce | e2e/task-fidelity/agent/scripted-provider.ts:191-325 | At any moment of any run: call ids are unique and paired, turn events equal the completed steps that count, and turns are announced once for each call and each thinking step |
| ScriptedSession.StartBalances | e2e/task-fidelity/agent/scripted-provider.ts:239-249 | Starting a call puts its leaf in flight and nowhere else |
| ScriptedSession.FinishBalances | e2e/task-fidelity/agent/scripted-provider.ts:251-274 | Finishing a call moves its leaf and disturbs no other |
| StructuralMatch.DeepEqualIff | e2e/task-fidelity/expectations.ts:343-358 | deepEqual is equality of nested values, objects by equal size and inclusion of keys |
| StructuralMatch.ShapeIff | e2e/task-fidelity/expectations.ts:360-375 | A value contains a shape if and only if wherever a path leads in the shape it leads to something alike in the value: the same scalar, an array as long, some object |
| StructuralMatch.ShapeIsReflexive | e2e/task-fidelity/expectations.ts:360-375 | Every value contains itself |
| StructuralMatch.DeepEqualImpliesShape | e2e/task-fidelity/expectations.ts:343-375 | Equal values contain each other |
| StructuralMatch.MutualIff | e2e/task-fidelity/expectations.ts:360-375 | Two values contain each other if and only if they are equal once undefined fields are dropped |
| StructuralMatch.ShapeIsAntisymmetric | e2e/task-fidelity/expectations.ts:360-375 | On values without undefined fields mutual containment is equality |
| StructuralMatch.ShapeIsTransitive | e2e/task-fidelity/expectations.ts:360-375 | Containment chains at shapes without undefined fields |
| StructuralMatch.IndefiniteBreaksAChain | e2e/task-fidelity/expectations.ts:368-373 | Every other shape has a chain that breaks |
| StructuralMatch.TransitiveIff | e2e/task-fidelity/expectations.ts:360-375 | Transitivity at a shape holds if and only if no field of it is undefined |
| ExpectationLedger.PassesIff | e2e/task-fidelity/expectations.ts:206-255 | A pass takes a value, one that meets the target or, while its owner is pending, one that meets the baseline and not the target |
| ExpectationLedger.BlankIff | e2e/task-fidelity/expectations.ts:320-320 | A note is empty if and only if it is nothing but white space |
| ExpectationLedger.CensusOfExpectation | e2e/task-fidelity/expectations.ts:313-332 | The findings on one expectation, all of them and no others |
| ExpectationLedger.CensusOfScenario | e2e/task-fidelity/expectations.ts:308-333 | The findings on one scenario and the owners with a baseline |
| ExpectationLedger.Census | e2e/task-fidelity/expectations.ts:302-341 | The census reports exactly the findings that the catalogue and the pending set justify |
| ExpectationLedger.CleanNeverMissesBaseline | e2e/task-fidelity/expectations.ts:229-235 | Under a clean census no evaluation reaches the missing-baseline branch |
| ExpectationLedger.CleanPendingIff | e2e/task-fidelity/expectations.ts:288-298 | Under a clean census the pending owners are exactly those with a baseline |
| ExpectationLedger.CleanSetIsUnique | e2e/task-fidelity/expectations.ts:44-51 | A catalogue is clean under at most one pending set |
| ExpectationLedger.RemovalSpoilsCensusIff | e2e/task-fidelity/expectations.ts:322-339 | Removing an owner from a clean set makes the census non-empty if and only if the owner is not `current` |
| ExpectationLedger.RatchetTurns | e2e/task-fidelity/expectations.ts:206-251 | What passed while its owner was pending fails after removal on the same measurement, and the other way round |
| ToolCallSummary.DecisionIsTheLast | apps/cli/src/commands/audit-builder.ts:214-221 | The last well-formed decision of a confirmation counts |
| ToolCallSummary.ReadDecisions | apps/cli/src/commands/audit-builder.ts:214-221 | The loop keeps it for every confirmation |
| ToolCallSummary.Summarize | apps/cli/src/commands/audit-builder.ts:210-266 | One row for each call mentioned, none besides, ordered by number |
| ToolCallSummary.LastDecides | apps/cli/src/commands/audit-builder.ts:237-264 | In the sorted log a call's last line decides status, duration, confirmation and completeness |
| ToolCallSummary.NamingGivesNumber | apps/cli/src/commands/audit-builder.ts:238-256 | Its last start, or its first end if there is no start, gives number and tool |
| ToolCallSummary.SummaryIsStrict | apps/cli/src/commands/audit-builder.ts:265-265 | With distinct line numbers the rows are strictly ordered |
| ToolCallSummary.SummaryForgetsOrder | apps/cli/src/commands/audit-builder.ts:237-265 | With distinct line numbers the summary does not depend on the order of the lines |
| ToolCallSummary.HighestLineDecides | apps/cli/src/commands/audit-builder.ts:237-264 | For a log in any order, ties included: a row is incomplete if and only if the last of the call's highest-numbered lines is a start; an end gives status, duration, confirmation and decision |
| ToolCallSummary.NamingLineGivesNumber | apps/cli/src/commands/audit-builder.ts:237-256 | For a log in any order, ties included: which line gives the row its number and tool |
| Sorting.SortedIsStable | apps/cli/src/commands/audit-builder.ts:237-237 | Elements that tie stay in the order they came in |
| Sorting.LastOfSorted | apps/cli/src/commands/audit-builder.ts:237-237 | Where the last element with a property was before sorting |
| ActionScore.LatestFormStates | e2e/task-fidelity/fixtures/form-state.ts:40-47 | Each page's state is the first post with the highest number |
| ActionScore.LatestForgetsOrder | e2e/task-fidelity/fixtures/form-state.ts:39-47 | With distinct numbers the order of arrival does not matter |
| ActionScore.JudgeGroup | e2e/task-fidelity/score/action-scorer.ts:220-230 | A group holds if and only if all members are present and one is checked |
| ActionScore.DecisionsTell | e2e/task-fidelity/score/action-scorer.ts:198-238 | Although a group counts once, all decisions pass if and only if every single rule holds |
| ActionScore.JudgeRules | e2e/task-fidelity/score/action-scorer.ts:198-238 | The loop makes exactly these decisions, and so decides whether every single rule holds |
| ActionScore.AllMeansAllPass | e2e/task-fidelity/score/action-scorer.ts:40-51 | A score is full if and only if every decision passed |
| ActionScore.NumeratorCounts | e2e/task-fidelity/score/action-scorer.ts:40-51 | A score counts the decisions that passed |
| ActionScore.SuccessIff | e2e/task-fidelity/score/action-scorer.ts:195-310 | What a success says of the page and the reports themselves, and all it takes: every rule met, each of three counters zero where submitting is forbidden, every requirement reported as it is |
| ActionScore.ScoreActions | e2e/task-fidelity/score/action-scorer.ts:195-310 | task_success if and only if every rule holds of the final state, nothing forbidden was submitted, every capture is there and the reports are true; a success is always a reported one; all other parts of the verdict are determined too |
| ActionScore.ScorePosts | e2e/task-fidelity/score/action-scorer.ts:195-310 | Posts to verdict: the latest state of the task's page is the one judged |
| ActionScore.VerdictForgetsPostOrder | e2e/task-fidelity/fixtures/form-state.ts:39-47 | Scoring two logs with the same posts in different orders gives the same verdict, in every part |
| Normalize.NormalizeIs | e2e/task-fidelity/score/scorer.ts:85-92 | All of it, character by character: which dollar signs, spaces and commas go, and that words stay apart by one space |
| Normalize.NormalizeKeepsText | e2e/task-fidelity/score/scorer.ts:85-92 | Nothing but spaces, dollar signs and commas is dropped, and nothing moves |
| Normalize.NormalizeIsNormal | e2e/task-fidelity/score/scorer.ts:85-92 | The result has no capitals, dollar signs, grouping commas, double or outer spaces |
| Common.LettersAre | e2e/task-fidelity/score/scorer.ts:87-87 | Capitals become their small letters and nothing else changes |
| Common.TrimCuts | e2e/task-fidelity/score/scorer.ts:91-91 | Trimming cuts off white space on both sides, all of it and nothing else |
| Normalize.CommasGone | e2e/task-fidelity/score/scorer.ts:89-89 | One left-to-right pass leaves no grouping comma behind |
| Normalize.RunGrows | e2e/task-fidelity/score/scorer.ts:89-89 | Removing commas joins digit runs only with whole groups |
| Normalize.NormalizeIsIdempotent | e2e/task-fidelity/score/scorer.ts:85-92 | Normalizing twice is normalizing once, for every text |
| Normalize.AmountNormalizes | e2e/task-fidelity/fixtures/inventory.ts:266-269 | A formatted amount with or without its dollar sign normalizes to the plain numeral, for every natural number |
| Normalize.AmountIsGrouped | e2e/task-fidelity/fixtures/inventory.ts:266-269 | Counted from the right exactly every fourth character is a comma |
| Common.DecimalReads | e2e/task-fidelity/fixtures/inventory.ts:266-269 | The plain numeral of a number stands for that number |
| Stability.Stability | e2e/task-fidelity/score/scorer.ts:742-769 | The loops compute the exact mean over counted pairs and the size of the largest identical group |
| Stability.TopFiveIs | e2e/task-fidelity/score/scorer.ts:745-745 | The first five keys, in the order of their text |
| Stability.JaccardIs | e2e/task-fidelity/score/scorer.ts:749-756 | One pair's term: shared keys over all keys, a shared one counted once |
| Stability.PairsCounted | e2e/task-fidelity/score/scorer.ts:747-755 | Every pair of runs counts but those in which both deliver nothing |
| Stability.MeanIsAShare | e2e/task-fidelity/score/scorer.ts:746-760 | The mean lies between zero and one |
| Stability.MeanIsOneIff | e2e/task-fidelity/score/scorer.ts:746-760 | With two runs or more the mean is one if and only if all deliver one nonempty set |
| Stability.JoinIsInjective | e2e/task-fidelity/score/scorer.ts:761-764 | Lists of keys without bars are told apart by their joins |
| Stability.MeasuresAgree | e2e/task-fidelity/score/scorer.ts:742-769 | The mean is one if and only if the largest group is all the runs |
| Stability.MeasuresForgetOrder | e2e/task-fidelity/score/scorer.ts:742-769 | Neither measure depends on the order of the runs |
| Stability.MainRowsAre | e2e/task-fidelity/score/scorer.ts:403-410 | Delivered are the rows of the units that are no alternatives |
| Stability.DeliveredRows | e2e/task-fidelity/score/scorer.ts:403-410 | The loops keep each main row once, where it first appears |
| Stability.FirstSeenIsDistinct | e2e/task-fidelity/score/scorer.ts:403-410 | Delivered rows are distinct, none missing and none invented |
| Stability.FirstSeenKeepsOrder | e2e/task-fidelity/score/scorer.ts:402-410 | They come in the order of first delivery |
| Stability.ScoredRunsAgree | e2e/task-fidelity/score/scorer.ts:703-769 | For runs as the scorer delivers them, bar-free ids make the measures agree |
| Stability.MeasuresDisagreeIff | e2e/task-fidelity/score/scorer.ts:742-769 | For any lists, the measures disagree if and only if one set has several joins or one join has several sets |
| Stability.BarFreeMeasuresAgreeIff | e2e/task-fidelity/score/scorer.ts:742-769 | Without bars, if and only if one set comes as several lists |
| Stability.DistinctMeasuresAgreeIff | e2e/task-fidelity/score/scorer.ts:742-769 | With distinct keys, if and only if several sets share one join |
| Stability.RepeatedKeysDisagree | e2e/task-fidelity/score/scorer.ts:742-769 | A repeated key within one run makes them disagree |
| Stability.BarsDisagree | e2e/task-fidelity/score/scorer.ts:761-764 | A bar in a key makes them disagree |
| Percentile.NearestRankIs | e2e/task-fidelity/benchmark.ts:49-59 | Except for an even median, a percentile is the least sample with at least the asked share of the sample at or below it, for every fraction up to one |
| Percentile.EvenMedianIs | e2e/task-fidelity/benchmark.ts:49-59 | An even median lies halfway between the least sample with half of the sample at or below it and the least with one more |
| Percentile.P95Agrees | e2e/task-fidelity/eval.ts:324-327 | The evaluation's own p95 is the benchmark's |
| Percentile.P50IsMedian | e2e/task-fidelity/score/scorer.ts:772-781 | The benchmark's p50 is the unrounded median |
| Percentile.P95IsAboveP50 | e2e/task-fidelity/benchmark.ts:49-59 | p95 is never below p50 |
| Percentile.PercentileForgetsOrder | e2e/task-fidelity/benchmark.ts:49-59 | No percentile depends on the order of the runs |
| Benchmark.BuildBenchmark | e2e/task-fidelity/benchmark.ts:68-229 | From scorecards to targets: when it succeeds, one cell for each key in use with the counts of exactly its runs, no run lost, and three targets met if and only if the cells say so |
| Benchmark.AcceptedAre | e2e/task-fidelity/benchmark.ts:81-103 | Taken are exactly the runs of the scenarios whose ids start with `bench-form-`, each under its scenario, setting and phase |
| Benchmark.SomethingIff | e2e/task-fidelity/benchmark.ts:106-106 | There is something to report if and only if some scenario is a benchmark form |
| Benchmark.GroupInputs | e2e/task-fidelity/benchmark.ts:72-106 | Grouping succeeds if and only if prompt versions agree, no cell repeats a run and there is something to report, and says which of these failed; each group then holds exactly its runs |
| Benchmark.AddRun | e2e/task-fidelity/benchmark.ts:99-103 | A run is refused if and only if its cell has one with its id |
| Benchmark.RunsAreConserved | e2e/task-fidelity/benchmark.ts:107-117 | The cells' run counts add up to the accepted runs |
| Benchmark.CellHasNoRepeats | e2e/task-fidelity/benchmark.ts:99-103 | No cell counts two runs with one id |
| Benchmark.CellCounts | e2e/task-fidelity/benchmark.ts:107-117 | What the numbers of a cell count |
| Benchmark.ReportedSplits | e2e/task-fidelity/benchmark.ts:112-117 | Reported runs are the successes plus the falsely fulfilled ones if and only if no success is unreported |
| Benchmark.ScoreRuns | e2e/task-fidelity/score/scorer.ts:703-714 | Runs scored by the action scorer: their cell always splits so |
| Benchmark.PassesIff | e2e/task-fidelity/benchmark.ts:175-176 | A cell passes with at least twenty runs of which at most one in twenty fails |
| Benchmark.ModelsTarget | e2e/task-fidelity/benchmark.ts:174-229 | The target is met if and only if two different settings pass on three common layouts |
| Listing.ActiveFilters | e2e/task-fidelity/fixtures/faceted-listing.ts:117-124 | The loop reads every nonempty facet value of a query |
| Listing.ResultsHref | e2e/task-fidelity/fixtures/faceted-listing.ts:133-142 | The loop writes the filters in facet order, then the page |
| Listing.LinkRoundTripIff | e2e/task-fidelity/fixtures/faceted-listing.ts:117-142 | A link gives its filters back if and only if none is empty |
| Listing.MatchesIff | e2e/task-fidelity/fixtures/faceted-listing.ts:126-130 | What a filter asks of an item, field by field, without regard to case |
| Listing.MatchingOfConcat | e2e/task-fidelity/fixtures/faceted-listing.ts:146-146 | Listing is item by item and keeps the order |
| Listing.CountIsHonestIff | e2e/task-fidelity/fixtures/faceted-listing.ts:171-187 | A facet count equals the total of the page behind its link if and only if no matching item differs from the value in case alone |
| Listing.PagesPartition | e2e/task-fidelity/fixtures/faceted-listing.ts:147-150 | The pages in order are the list; all but the last are full and none is empty |
| Listing.PageForIsNearest | e2e/task-fidelity/fixtures/faceted-listing.ts:148-149 | The page shown is the one nearest to the one asked for |
| Listing.ParseIntReads | e2e/task-fidelity/fixtures/faceted-listing.ts:148-148 | White space, a sign and a run of digits stand for a number, whatever follows |
| Listing.ParseIntHasRead | e2e/task-fidelity/fixtures/faceted-listing.ts:148-148 | Nothing else is a number |
| Listing.NumeralParses | e2e/task-fidelity/fixtures/faceted-listing.ts:148-148 | The page number a link writes is the number the page reads |
| Listing.Pagination | e2e/task-fidelity/fixtures/faceted-listing.ts:207-226 | The loop lists every page, the current one without a link, between the neighbours there are |
| Listing.NumberAt | e2e/task-fidelity/fixtures/faceted-listing.ts:207-226 | So every page is one link away from every other |
| Listing.PageLinkLeadsThere | e2e/task-fidelity/fixtures/faceted-listing.ts:207-226 | Every pagination link leads to its own page of the same filters |
| Listing.Pages | e2e/task-fidelity/fixtures/client-rendered-listing.ts:95-110 | The loop-based pager yields the same pages as slicing |
| Listing.ListingPageIsTheOne | e2e/task-fidelity/fixtures/inventory.ts:276-281 | The named page is the one unfiltered page that shows the item |

## Left out

- File contents, real paths and directories: paths are resolved segment lists and only files are kept, so a refusal that compares unresolved text and an empty directory left behind are not modelled.
- Case-blind volumes: paths are told apart by case, though the refusal compares them without. On such a volume a file can land back under another spelling of the source: source `/Data/yantra`, target `/data` and file `/Data/yantra/yantra/x` do not meet `LandsBack`, and the file is lost all the same.
- The refusal to remove a managed tree outside the source: the modelled decision always names a subtree of the source, so that branch cannot be taken.
- Renaming a directory onto an existing empty one, and platform differences of `rename`: a rename needs a target without files.
- Certificates, keys, signatures and PEM wrapping: the values inside them are octets here.
- Splitting a dotted identifier into numbers: the model starts from the list of arcs.
- The results a search call returns, and the matching of queries: only outcomes, faults and concurrency are modelled.
- Resolving specifiers to files, and line and column numbers: an import carries the file it resolves to and its position in the list.
- Regular expressions of single field rules, PNG validation and action timing: a rule carries its test, a capture its verdict.
- Objects with inherited properties and cyclic values in structural comparison: an object is its own fields.
- Text beyond ASCII in normalization and case folding, and locale-dependent ordering of report cells.
- Rounding to three decimals, floating-point error, and the deltas between benchmark phases.
- Tools that throw, steering messages, and two prompts at once in the scripted session: a call is a start and a finish with any result, and a prompt ends before the next.
- Percent-encoding of link parameters and the HTML around them.
- Sorting as an in-place algorithm: `Sorting` gives the result of a stable sort as a value.
- Matchers other than equality and shape, gate expectations, and the narrative parts of the audit: each is settled by reading one expression.
- The selection of expected rows, the matching of delivered units to them, field coverage and constraint fidelity: nested counting loops in which nothing depends on an earlier round.
