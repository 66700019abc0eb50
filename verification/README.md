# Verification models of agent_crew

agent_crew dispatches work to coding agents around a task queue. This project models its
self-contained algorithms and protocols in Dafny and proves what they promise, over every
input, every interleaving and every run. `dafny verify dfyconfig.toml` checks all of it.

What is modelled, hardest first:

- **Cloud credit attribution** (`CreditLedger`, `CreditRuns`, `CreditTable`, `CreditAccounting`,
  `CreditRelaunch`). One global, cumulative credit counter is split between cloud sessions.
  `CreditLedger` is the recorder's arithmetic; `CreditRuns` is the state machine of launches,
  ends, readings, ticks and time; `CreditTable` is the task table, a class whose history is such
  a run; `CreditAccounting` adds what the amounts mean: charges are postings to the counter, each
  in the settle window of its session. Ends are overwritten in the ordinary path
  of a cloud review, and the runs allow it at any time.
- **Brace expansion** (`BraceExpansion`, `BraceMeaning`, `BraceAgreement`). The rewriting loop
  terminates on every string and ends in a normal form. Patterns are also given a meaning by
  recursion on trees, and the loop computes that meaning exactly when no group with one
  alternative can come out empty. `{{,}}` is a balanced text on which it does not.
- **Chunked tail reader** (`TranscriptTail`, `JsonObjectLines`). A backwards, chunk-growing
  scan agrees with a scan of the whole window when no torn piece of a line reads as something
  else. That this holds for lines that are JSON objects is proved from the string and nesting
  rules of sections 4 and 7 of RFC 8259.
- **Two concurrent protocols** (`ContractEmit`, `LateResult`). A coalescing emitter loses no
  schedule; a timed-out retrieval is reported exactly once.
- **Context packs** (`PackOrder`, `PackPlanner`). The budgeted greedy planner.
- **Marker block** (`MarkerBlock`). Splicing a generated block into a user's file.
- **Posting over a lossy link** (`LossyPost`) and **bounded submission** (`LaunchBudget`).
- **Merge gate** (`ReviewComment`, `GateRecord`, `PytestSummary`, `GateDecision`, `GateRuns`,
  `GateHeads`).
  The review comment and the gate comment with their readers, the decision which head is
  tested, and runs of many gate processes with crashes and lost posts.
- **Suppression outbox** (`SuppressionOutbox`). A log with flags, rewrites and keep-last
  reading behaves as a queue.

`Text`, `TextLines` and `Wrappers` hold string search, line splitting and `Option`.

## Where the code does less than it says

- A regeneration replaces the block written before, and merging is idempotent, only when the
  block does not itself hold the END marker (`MarkerBlock.LastMergeWins`).
- The result of brace expansion can keep a brace on balanced texts
  (`BraceAgreement.ExpansionMeansPattern`).
- The fallback result `MissingShadowResult` can be returned: when building the error result
  itself raises, the event is still set but no result was written
  (`LateResult.FallbackIsReached`, with the exact condition in `LateResult.FallbackCondition`).
  A late report can then end in a missing key (`LateResult.MissingEntryIsReached`).
- A task that is put back to pending while its cloud session runs (src/agent_crew/queue.py:8077)
  and launched again loses the start of the first session, and a scan can then miss its charges
  (`CreditRelaunch.RelaunchHidesCharges`). An end that an earlier launch left in the row makes a
  scan pass over the second session while it runs (`CreditRelaunch.StaleEndHidesCharges`).
- One line of JSON that is not an object stops the suppression outbox for good
  (`SuppressionOutbox.UnreadableIsStuck`).
- Two pull requests with the same head get a gate comment each
  (`GateHeads.OneGateInAllIffHeadsDiffer`).
- A measured amount is exact for every history of charges only when the settle windows of the
  other sessions are out of reach of its before reading, which may be older than the session's
  start, and, after a relaunch, when its own window lies between its readings
  (`CreditAccounting.ExactForAllCharges`).
- A raised error of the task POST does not mean that no row exists
  (`LossyPost.RaisedMayLeaveRow`).

## Model

| member | source | states |
|---|---|---|
| `CreditAccounting.MeasuredAmount` | src/agent_crew/claude_cloud.py:329-377 | over every run with truthful readings and one launch for each session, ends overwritten and rows failed at any time, a MEASURED amount is the session's true cost plus what others were charged between its before reading and its start; never below the true cost, and exact if and only if nothing was charged there |
| `CreditAccounting.MeasuredOverAnyRun` | src/agent_crew/claude_cloud.py:361-371 | over every run with truthful readings, relaunches included, a MEASURED amount is what the session and others were charged between the two readings |
| `CreditRelaunch.RelaunchHidesCharges` | src/agent_crew/claude_cloud.py:1442-1457 | a run in which a second launch of one task makes the scan of another pass over a charge, so that a session without cost is measured with it |
| `CreditRelaunch.StaleEndHidesCharges` | src/agent_crew/claude_cloud.py:320-325 | a run in which the scan passes over a running second launch by the end that the first one left in its row, so that a session without cost is measured with its charge |
| `CreditAccounting.ExactForAllCharges` | src/agent_crew/claude_cloud.py:307-376 | over every run, relaunches included, the measured difference is the true cost under every legal history of charges if and only if the session's own window is empty or lies between its two readings, and every other session's settle window is empty, ends by the earlier reading, or opens after the later one |
| `CreditAccounting.ExactWhenLaunchedOnce` | src/agent_crew/claude_cloud.py:307-376 | with one launch for each session the own window always lies between the readings, and only the windows of the others decide |
| `CreditAccounting.DifferenceIsCostAndForeign` | src/agent_crew/claude_cloud.py:371 | a counter difference around a settle window is the session's cost and the charges of others in between |
| `CreditAccounting.OthersBeforeStart` | src/agent_crew/claude_cloud.py:307-326 | the overlap scan has excluded all charges of others between the start and the after reading of a measured session |
| `CreditAccounting.CounterNeverDecreases` | src/agent_crew/claude_cloud.py:340-341 | with truthful readings the status for a decreased counter is recorded only for an after reading older than the before reading, and so never when sessions are launched once |
| `CreditRuns.MeasuredWindowsAreDisjoint` | src/agent_crew/claude_cloud.py:307-419 | after every run, with ends overwritten, rows failed and tasks launched again at any time, any two measured sessions, real or shadow, closed in any order, have disjoint windows from start to end of settle time after the end each was closed with |
| `CreditRuns.RecordedWindowsAreDisjoint` | src/agent_crew/claude_cloud.py:350-377 | the same by the recorded ends in every run that writes no end after closing, also when an end is overwritten while the row is pending |
| `CreditRuns.MeasuredByScan` | src/agent_crew/claude_cloud.py:361-374 | a row becomes measured only when no other session can post up to its after reading |
| `CreditRuns.RunKeepsInv` | src/agent_crew/claude_cloud.py:345-419 | every run keeps all rows sane and measured ones apart; an end only moves forward, and a row that is measured at the end has been the same since it was closed |
| `CreditRuns.PhasesMoveForward` | src/agent_crew/claude_cloud.py:345-377 | a session goes from none to PENDING_SETTLE to final over any run; a closed row never turns into a measured one or a different amount |
| `CreditRuns.ClosedRowStays` | src/agent_crew/claude_cloud.py:346-348 | a final row never changes unless its task is launched again or its dispatch fails closed |
| `CreditRuns.FailedIsNeverMeasured` | src/agent_crew/claude_cloud.py:941-974 | a dispatch that fails closed ends the session now, as unknown when it was launched and as not launched otherwise; it is never measured afterwards, whatever follows, and scans leave it out once its settle time is over |
| `CreditRuns.TickMovesOnePhase` | src/agent_crew/claude_cloud.py:206-214 | a tick moves at most one phase; a pending row is closed exactly when the settle time is over and a fresh reading need not be awaited, at the latest from settle end plus fresh wait; never measured before settle end |
| `CreditRuns.TickDecides` | src/agent_crew/claude_cloud.py:329-374 | the whole decision on a pending row by the facts: nothing before the settle time is over; then an overlap closes it as such whatever the readings are; without one two good readings close it with the difference, or without when the counter went down; else it is unknown, at once or, when only the after reading is stale, from the end of the fresh wait on |
| `CreditRuns.FirstTickOpens` | src/agent_crew/claude_cloud.py:350-357 | the first call of the recorder opens the settle time from the recorded end, or from now |
| `CreditRuns.LaunchKeepsStamp` | src/agent_crew/claude_cloud.py:1442-1457 | whatever happens in between, a launch puts the start that was taken and the snapshot of then, if it was at most ten minutes old, into its row, and takes an earlier amount back |
| `CreditTable.Ledger.CloudCostOverlaps` | src/agent_crew/claude_cloud.py:307-326 | the scan over all tasks and both session kinds returns exactly the other sessions whose settle window meets the interval |
| `CreditTable.Ledger.RecordCost` | src/agent_crew/claude_cloud.py:345-419 | one recorder call is one step of the attribution runs: it does to its own session what the transition function says and leaves all others alone |
| `CreditTable.Ledger.MeasuredRowsAreDisjoint` | src/agent_crew/claude_cloud.py:307-419 | whatever launches, ends, failures and ticks have done to the table, its measured sessions have disjoint windows |
| `CreditRuns.LaunchIsSeen` | src/agent_crew/claude_cloud.py:1451-1457 | from its launch on, through every run up to the next launch of its task, a session is in the scan of every other whose interval reaches its start, until its recorded end and settle time have passed; so no other row is measured over it |
| `BraceAgreement.ExpansionMeansPattern` | src/agent_crew/conformance_gate.py:34-46 | the final list denotes the strings of the recursive expansion if and only if no group with a single alternative can come out empty |
| `BraceAgreement.BalancedExpansion` | src/agent_crew/conformance_gate.py:34-46 | the same for every balanced text: it is the rendering of a pattern, and the equivalence holds for it |
| `BraceAgreement.NestedEmptyGroupDiffers` | src/agent_crew/conformance_gate.py:38-41 | a concrete balanced text on which the loop leaves a brace |
| `BraceAgreement.SafeComputesMeaning` | src/agent_crew/conformance_gate.py:35-46 | for safe patterns a string is a normal form exactly when the pattern means it |
| `BraceAgreement.UnsafeKeepsBrace` | src/agent_crew/conformance_gate.py:38-43 | every unsafe pattern has a normal form with a brace |
| `BraceAgreement.EmptyIsMeant` | src/agent_crew/conformance_gate.py:40 | the syntactic condition for an empty alternative agrees with the meaning |
| `BraceMeaning.StepIsReduce` | src/agent_crew/conformance_gate.py:38-43 | one textual rewriting of the first innermost group is one reduction of the tree |
| `BraceMeaning.ReduceKeepsMeaning` | src/agent_crew/conformance_gate.py:40-41 | replacing a group by its alternatives keeps the meaning |
| `BraceMeaning.BalancedHasPattern` | src/agent_crew/conformance_gate.py:34-38 | every balanced text is the rendering of a pattern |
| `BraceExpansion.ExpandBraces` | src/agent_crew/conformance_gate.py:34-46 | the loop ends on every string, in the normal forms of the string in order, none of which holds a group |
| `BraceExpansion.ExpandOnce` | src/agent_crew/conformance_gate.py:36-43 | one pass of the loop rewrites each item once, in order |
| `BraceExpansion.PassLowersRank` | src/agent_crew/conformance_gate.py:35-46 | a pass lowers the largest number of opening braces among items that still hold a group |
| `BraceExpansion.PassKeepsNormalForms` | src/agent_crew/conformance_gate.py:36-46 | a pass leads to the same normal forms |
| `BraceExpansion.FixpointIsSettled` | src/agent_crew/conformance_gate.py:44-45 | the early exit is taken only when no item holds a group |
| `BraceExpansion.StepReplaces` | src/agent_crew/conformance_gate.py:38-41 | one rewriting puts, for the leftmost pair of braces around something without braces, each of its comma-separated parts in turn, stripped |
| `BraceExpansion.GroupIsLeftmost` | src/agent_crew/conformance_gate.py:38 | a group is found exactly when there is one, and it is the leftmost |
| `TranscriptTail.LastMessage` | src/agent_crew/claude_transcript.py:77-107 | the loops return what the recursive tail scan returns |
| `TranscriptTail.TailAgreesWithWindow` | src/agent_crew/claude_transcript.py:84-107 | the scan returns the newest message of the last chunk * chunks bytes, read as if at once; of the whole file when it fits |
| `TranscriptTail.ChunkSizeDoesNotMatter` | src/agent_crew/claude_transcript.py:86-90 | for a file that fits the result is the same for all chunk sizes |
| `TranscriptTail.NewestIsLast` | src/agent_crew/claude_transcript.py:91-102 | the message found is that of the last line that is not skipped, and none is found only when all are skipped |
| `TranscriptTail.LastLineIsRead` | src/agent_crew/claude_transcript.py:91-102 | for a file that fits, of lines joined by line feeds, the reader returns the message of the last line that is neither white space nor skipped, and nothing when that line raises |
| `TranscriptTail.NoLineIsRead` | src/agent_crew/claude_transcript.py:91-107 | and nothing when all lines are passed over |
| `TranscriptTail.SplitIsAtLineFeeds` | src/agent_crew/claude_transcript.py:91 | a buffer is split at each of its line feeds and nowhere else |
| `TranscriptTail.TornPieceCanBeTaken` | src/agent_crew/claude_transcript.py:87-95 | without the assumption on torn lines the chunk size can change the result |
| `JsonObjectLines.NoObjectTail` | src/agent_crew/claude_transcript.py:91-97 | a suffix of a JSON object text is an object text only when just white space is missing |
| `JsonObjectLines.ObjectTranscript` | src/agent_crew/claude_transcript.py:77-107 | for transcripts whose lines are objects in UTF-8 or unreadable, any JSON parser of bytes, byte order marks accepted or not, gives agreement with the whole file up to 16 chunks of 1 MiB |
| `JsonObjectLines.AcceptedPiece` | src/agent_crew/claude_transcript.py:91-97 | a torn piece of an object line that a parser accepts lacks nothing but white space |
| `JsonObjectLines.MarksAreAllowed` | src/agent_crew/claude_transcript.py:95 | the assumption on the parser holds of one that accepts a byte order mark |
| `ContractEmit.NoLostSchedule` | src/agent_crew/contract_emit.py:27-59 | in every interleaving, an idle project that was scheduled has had an emit begin after its last schedule; at most one worker, emits never exceed schedules, at most two emits end after the last schedule |
| `ContractEmit.RequestIsServed` | src/agent_crew/contract_emit.py:42-59 | after any run, a request with a command and a project whose thread starts leaves the project pending with one live worker, whatever other projects do, and an emit begins before the project is idle |
| `ContractEmit.FutileRequest` | src/agent_crew/contract_emit.py:44-58 | a request without command or project, or for an idle project whose thread does not start, changes nothing |
| `ContractEmit.QuietRunDrains` | src/agent_crew/contract_emit.py:27-39 | without further schedules a worker takes at most six more steps, and the project is idle exactly when it has taken them |
| `ContractEmit.WorkerCanMove` | src/agent_crew/contract_emit.py:27-39 | until the project is idle its worker has an enabled step |
| `ContractEmit.WorkerFindsItsEntry` | src/agent_crew/contract_emit.py:33-39 | a worker never finds its dictionary entry missing |
| `ContractEmit.WorkerGoesOnIfAsked` | src/agent_crew/contract_emit.py:33-51 | after an emit the worker starts another exactly when a schedule was accepted since its round began, else the project is idle; other projects are not touched |
| `ContractEmit.Emitter.ScheduleEmit` | src/agent_crew/contract_emit.py:42-59 | one step of the interleavings: it starts a worker exactly for an idle project with a command whose thread starts, flags a running one, and takes the entry back when the thread cannot start |
| `ContractEmit.Emitter.IdleIsServed` | src/agent_crew/contract_emit.py:27-59 | whatever was done through the shared dictionary, an idle project has had an emit begin and end after its last schedule |
| `LateResult.WarnsAtMostOnce` | src/agent_crew/memory.py:208-255 | in every interleaving at most one late warning, none unless the waiter gave up, and it shows a fully written result and time |
| `LateResult.LateResultIsReportedOnce` | src/agent_crew/memory.py:225-255 | when both threads are done, exactly one warning was logged if and only if the wait expired and a result was written, and none if and only if the wait ended in time or building the error result had raised; it shows the result written and the time measured then; exactly one report misses its entry if and only if the wait expired and that raised; the caller's result follows in each case |
| `LateResult.FallbackCondition` | src/agent_crew/memory.py:227-247 | the fallback for a missing result is returned if and only if the wait ended by the event and building the error result had raised; a missing key is hit only after a timeout and when that raised |
| `LateResult.SafeWhenErrorsCanBeBuilt` | src/agent_crew/memory.py:230-247 | in every run in which building the error result does not raise, neither the fallback nor a missing key occurs |
| `LateResult.FallbackIsReached` | src/agent_crew/memory.py:230-247 | a run in which the caller gets the fallback |
| `LateResult.MissingEntryIsReached` | src/agent_crew/memory.py:208-250 | a run in which the report of the waiter finds the result missing |
| `LateResult.SomeStepIsEnabled` | src/agent_crew/memory.py:208-250 | no deadlock until both threads are done |
| `LateResult.RunsAreShort` | src/agent_crew/memory.py:208-255 | every interleaving ends within nineteen statements |
| `PackPlanner.PlanPack` | src/agent_crew/context_pack.py:877-903 | the loop with its running totals selects what the greedy pass over the list selects |
| `PackPlanner.PackForgetsOrder` | src/agent_crew/context_pack.py:816-901 | candidates with distinct ids give the same ordered pack in every arrangement |
| `PackPlanner.PackIsBounded` | src/agent_crew/context_pack.py:883-901 | tokens and items stay within the larger of budget and mandatory core, ids are unique, caps of optional kinds hold |
| `PackPlanner.PackIsMaximal` | src/agent_crew/context_pack.py:883-901 | every mandatory id is packed whatever the budget, and no left-out candidate would fit the final pack |
| `PackPlanner.LeftOutHadItsTurn` | src/agent_crew/context_pack.py:883-901 | no candidate is left out for one that comes after it in the order: it did not fit next to items that are mandatory, failure patterns or not after it, and nothing packed later is before it |
| `PackPlanner.PackIsOrderedInParts` | src/agent_crew/context_pack.py:878-901 | a pack is its mandatory core, up to two failure patterns, and the rest, each in the order of the keys |
| `PackPlanner.FirstTwoPatternsArePacked` | src/agent_crew/context_pack.py:879-883 | two failure patterns that no other one precedes are both packed whenever the two fit next to the mandatory core in items, tokens and cap |
| `PackPlanner.OnlyPatternIsPacked` | src/agent_crew/context_pack.py:879-883 | the same for the only failure pattern |
| `PackPlanner.FailurePatternFloor` | src/agent_crew/context_pack.py:879-883 | the first two failure patterns are packed whenever they fit next to the mandatory core, whatever else competes |
| `PackPlanner.CoreIsMandatory` | src/agent_crew/context_pack.py:883-893 | the first part of the queue yields exactly one artifact for each mandatory id |
| `PackPlanner.PackTakesCandidates` | src/agent_crew/context_pack.py:878-903 | nothing but candidates is packed |
| `PackOrder.KeyOrder` | src/agent_crew/context_pack.py:816-823 | the sort key is a total order that tells apart artifacts of different ids |
| `PackOrder.KeyOrderMeans` | src/agent_crew/context_pack.py:816-823 | issue and acceptance criteria come first, then the rank decides, then the higher score, then the smaller id |
| `PackOrder.RankIsAuthority` | src/agent_crew/context_pack.py:99-104 | known types rank by authority, remote content as evidence, unknown types behind all |
| `PackOrder.SortForgetsOrder` | src/agent_crew/context_pack.py:878 | sorting arrangements of the same distinct candidates gives the same list |
| `MarkerBlock.LastMergeWins` | src/agent_crew/instructions.py:946-968 | for every existing text, stray and reversed markers included, a second merge gives what it would have given alone if and only if the first block lacks the END marker |
| `MarkerBlock.MergeIsIdempotent` | src/agent_crew/instructions.py:947-952 | merging the same block twice is merging it once, for blocks without the END marker |
| `MarkerBlock.OutsideIsPreserved` | src/agent_crew/instructions.py:960-968 | the text before and after the owned region is kept byte for byte; without a region the whole text follows the block |
| `MarkerBlock.OwnedRegion` | src/agent_crew/instructions.py:961-968 | the text is the part before, the region from the first BEGIN to the first END, and the part after |
| `MarkerBlock.FirstWrite` | src/agent_crew/instructions.py:960-966 | without both markers the result is the block between them, an empty line and the text, character by character |
| `MarkerBlock.RewriteIsLocal` | src/agent_crew/instructions.py:967-968 | a block between the first markers is replaced, and the text on both sides, further markers included, stays |
| `MarkerBlock.ReversedMarkersAreText` | src/agent_crew/instructions.py:963-966 | an END before the first BEGIN makes no block: the text is kept whole below a new one |
| `MarkerBlock.MarkersApart` | src/agent_crew/instructions.py:81-82 | the two markers never overlap in a text |
| `MarkerBlock.SecondMerge` | src/agent_crew/instructions.py:960-968 | exactly what a second merge leaves behind when the first block held an END marker |
| `LossyPost.ReturnedMeansOneRow` | src/agent_crew/loop.py:46-81 | with requests and replies lost, late or repeated, at most two POSTs are sent, no id has two rows, and a returned id is the task's own with exactly one row, also ever after |
| `LossyPost.ConflictNeedsConfirmation` | src/agent_crew/loop.py:71-76 | over every run in which the retry gets a 409, the call returns if and only if the same id is confirmed afterwards, and then it has exactly one row; otherwise the 409 is raised |
| `LossyPost.FirstConflictRaises` | src/agent_crew/loop.py:59-65 | over every run a 409 on the first POST is raised without confirmation and without a second POST |
| `LossyPost.RaisedMayLeaveRow` | src/agent_crew/loop.py:77-81 | a run in which the call raises and its first request commits afterwards |
| `LossyPost.EveryObservationAdvances` | src/agent_crew/loop.py:56-81 | the call ends after at most four observations |
| `LossyPost.OutcomeByObservations` | src/agent_crew/loop.py:56-81 | over every run what the call saw decides its outcome and its POSTs: each of the ways to end, a timeout or conflict of the retry decided by a confirmation |
| `LossyPost.PostTaskHttp` | src/agent_crew/loop.py:56-81 | whatever the link does, the sequence of effects is a run of the protocol to its end, with the same outcome and POSTs; a returned id has one row; at most two POSTs |
| `LaunchBudget.Submitter.LaunchOnce` | src/agent_crew/claude_cloud.py:1463-1507 | never passes the deadline of 120 seconds, makes at most three submissions within their limits, waits half a second and a second between them, records each plain timeout under the next number, and returns what the last submission decides |
| `LaunchBudget.Submitter.Dispatch` | src/agent_crew/claude_cloud.py:1459-1520 | resume and fresh start share one deadline and make at most six submissions; the fresh start follows only a failure that is neither timeout nor prompt |
| `ReviewComment.BuildBody` | src/agent_crew/github.py:187-209 | the appended lines are verdict, findings, summary, files, head and reviewer, each under its condition |
| `ReviewComment.BodyText` | src/agent_crew/github.py:187-208 | the lines of a body, one by one, with each finding as a bullet |
| `ReviewComment.BodyReadsBack` | src/agent_crew/github.py:193-209 | a body whose parts are single lines is read back line by line |
| `ReviewComment.HeadCannotBeForged` | scripts/premerge_gate.py:89-96 | for one-line reviewer and task ids, the reader applied to any posted body yields the supplied head in lower case if and only if it is a commit id and the rest lacks the marker; otherwise nothing |
| `ReviewComment.OneLineIdsAreNeeded` | scripts/premerge_gate.py:91-95 | with a reviewer id of several lines the statement above fails |
| `ReviewComment.ReadLastTwo` | scripts/premerge_gate.py:91-96 | what the reader makes of any text whose last two lines are known |
| `TextLines.SplitAtLineFeed` | scripts/premerge_gate.py:91 | a line feed separates the lines before it from those after it, whatever other breaks the text holds |
| `TextLines.SplitAtBreak` | scripts/premerge_gate.py:91 | every line break ends a line, and a carriage return with a line feed ends it once |
| `Text.StripMeans` | scripts/premerge_gate.py:196 | stripping gives a text exactly for its paddings with white space |
| `TextLines.CountAcrossLines` | scripts/premerge_gate.py:92 | occurrences of what holds no line feed are counted line by line |
| `GateRecord.PayloadRoundTrip` | scripts/premerge_gate.py:170-217 | reading any gate comment with one-line parts gives back head, main, summary and exit code |
| `GateRecord.ParsePrintInt` | scripts/premerge_gate.py:179-180 | parsing a printed integer gives it back, negative ones included, and the printed form is one line |
| `GateRecord.CommentText` | scripts/premerge_gate.py:214-217 | the gate comment, character by character |
| `GateRecord.GatePayload` | scripts/premerge_gate.py:170-181 | the loop over the lines fills the fields as the fold does; a later line overrides an earlier one and a bad exit line raises |
| `PytestSummary.RecordRoundTrip` | scripts/premerge_gate.py:170-241 | whatever the tests print and however the run ends, head, main, summary and exit code survive the gate comment |
| `PytestSummary.SummaryIsOneLine` | scripts/premerge_gate.py:193-211 | the summary of any output is one line of at most 300 characters |
| `PytestSummary.PytestSummary` | scripts/premerge_gate.py:193-211 | the two loops yield the last totals line and the first three distinct failing tests |
| `PytestSummary.FindFailures` | scripts/premerge_gate.py:200-208 | stopping at the third test loses nothing: the result is the first three of all tests named |
| `PytestSummary.NamedOnce` | scripts/premerge_gate.py:203-206 | each failing test is named once, and every failure line contributes its test |
| `PytestSummary.NamedOnlyGrows` | scripts/premerge_gate.py:201-206 | the tests named by the first lines come first |
| `PytestSummary.TotalsAreLast` | scripts/premerge_gate.py:195-199 | the totals are those of the last line that reads as totals |
| `PytestSummary.FailureNamesTest` | scripts/premerge_gate.py:202-204 | a failure line names what stands between its label and the separator, whatever white space surrounds it |
| `PytestSummary.SummaryText` | scripts/premerge_gate.py:209-211 | the summary is the totals and up to three named tests, cut after 300 characters |
| `GateDecision.NeedsGate` | scripts/premerge_gate.py:99-119 | the sorted scan answers yes exactly when the latest trusted review approves this very head and no trusted comment records a gate for it; of the review posted after all others, by stamp and id, the verdict decides |
| `GateDecision.LatestReviewDecides` | scripts/premerge_gate.py:108-119 | with a trusted review posted after all others, the head is tested if and only if that review approves it and no trusted comment records a gate |
| `GateDecision.ApprovalPattern` | scripts/premerge_gate.py:117 | a line approves exactly when its verdict is the word, perhaps behind the check mark, with any white space around |
| `GateDecision.RecordsByMark` | scripts/premerge_gate.py:112 | either mark and the head, anywhere and in any case, make a gate record |
| `GateDecision.SortFindsNewest` | scripts/premerge_gate.py:108-111 | the last review of the sorted comments is the latest one |
| `GateDecision.NewestIsLatest` | scripts/premerge_gate.py:107-111 | no trusted review has a later key than the one the decision rests on |
| `GateDecision.ServerReviewDecides` | scripts/premerge_gate.py:114-119 | when the server wrote the latest review, the head is tested exactly if that review approved and was given this head and its text lacks the marker, and no gate is recorded |
| `GateDecision.ServerReviewApproves` | src/agent_crew/github.py:187-209 | the approval pattern and the head reader accept a server comment exactly when it approves and names that head |
| `GateDecision.GateCommentIsFound` | scripts/premerge_gate.py:140-147 | both readers find every gate comment that the script writes |
| `GateDecision.FoundGateIsRefused` | scripts/premerge_gate.py:112-142 | what the main loop takes for a finished gate the decision refuses as well |
| `GateRuns.OneGateComment` | scripts/premerge_gate.py:268-323 | over every run of any number of locked processes, crashes, lost posts and other comments, a pull request gets at most one gate comment for a head |
| `GateHeads.OneGateInAllIffHeadsDiffer` | scripts/premerge_gate.py:288-319 | over all runs a head gets at most one gate comment, on whatever pull requests, if and only if no two of the listed pull requests share a head |
| `GateHeads.SharedHeadIsGatedTwice` | scripts/premerge_gate.py:293-303 | a run in which two pull requests with one head get a gate comment each |
| `GateRuns.GateFollowsApproval` | scripts/premerge_gate.py:294-318 | over every run each gate comment stands below a trusted review that approves exactly its head on the same pull request |
| `GateRuns.GateStopsLaterTests` | scripts/premerge_gate.py:112-113 | a gate comment stops every later test of its head, by any process |
| `GateRuns.FreePassPosts` | scripts/premerge_gate.py:302-318 | a head that is to be tested gets its gate comment by one undisturbed pass |
| `GateRuns.StepKeepsInv` | scripts/premerge_gate.py:53-65 | every step keeps mutual exclusion, readable and backed gate comments, and what each process relies on |
| `SuppressionOutbox.LogRefinesQueue` | src/agent_crew/pause.py:130-194 | from any file and over any run of record and mark steps, a reader gets the content of a queue with one entry to an id if the file held no line of JSON that is not an object, and raises otherwise |
| `SuppressionOutbox.UnreadableIsStuck` | src/agent_crew/pause.py:161-190 | once such a line is in the file, over any run no operation changes it and no reader gets a list |
| `SuppressionOutbox.RecordsAreConserved` | src/agent_crew/pause.py:130-194 | over any run the records of an id that waited or were appended are those taken off by a mark and the one still waiting |
| `SuppressionOutbox.RunKeepsOnePending` | src/agent_crew/pause.py:136-138 | at most one pending record to an id is kept over every run, and then the list is the pending records in file order |
| `SuppressionOutbox.MarkTakesNamedIds` | src/agent_crew/pause.py:175-194 | a mark takes exactly the named ids off the pending list of any file and keeps the order of the others |
| `SuppressionOutbox.MarkRewrites` | src/agent_crew/pause.py:182-194 | a rewritten file holds the records of the old one in order and nothing else, those of the named ids flagged and no flag taken back |
| `SuppressionOutbox.RecordGoesLast` | src/agent_crew/pause.py:136-147 | in a readable file a record goes to the end of the pending list, and a waiting id keeps its earlier record |
| `SuppressionOutbox.ListedIsLast` | src/agent_crew/pause.py:166-172 | the last record of each id is listed |
| `SuppressionOutbox.Outbox.ListSuppressed` | src/agent_crew/pause.py:150-172 | the loops list the last record of each id in file order, all or pending only, and raise exactly when a line holds JSON that is not an object |
| `SuppressionOutbox.Outbox.RecordSuppressed` | src/agent_crew/pause.py:130-147 | appends one pending record unless the id is waiting or the file makes the reader raise, and changes nothing else |
| `SuppressionOutbox.Outbox.MarkReplayed` | src/agent_crew/pause.py:175-194 | flags the records of the named ids and drops lines that are not JSON; raises and leaves the file when a line holds JSON that is not an object |

## Left out

- CreditTable.Ledger.RecordCost: does not model rounding to six decimals; amounts are reals, and the two waits are constants of a run although the code reads them from the environment at each call.
- CreditTable.Ledger.CloudCostOverlaps: does not model the sorting of the overlap list; it is a set.
- CreditTable.Ledger.PublishLaunch: the cost row and the context are written in one step; so is one call of the recorder.
- CreditAccounting.MeasuredAmount: covers runs with one launch for each session, since with a second launch it is false (`CreditRelaunch.RelaunchHidesCharges`); `CreditAccounting.MeasuredOverAnyRun` and `CreditAccounting.ExactForAllCharges` cover all runs. Charges up to the settle time after the first end written since the last launch, not negative, and readings that show the counter at the time they were fetched are assumptions about the provider.
- TranscriptTail.LastMessage: file errors and the file changing while it is read are not modelled; the JSON parser is a parameter, constrained in `JsonObjectLines` to UTF-8 lines without bytes 0, 254 and 255.
- LateResult.LateResultIsReportedOnce: does not model failure to start the thread, nor errors inside the logger.
- ContractEmit.Emitter.ScheduleEmit: `wait_idle` and its timed waits are not modelled.
- PackPlanner.PlanPack: collecting candidates from providers, forge filtering, timeouts and degradation come before the model; token estimates are not negative and scores are reals.
- LossyPost.ReturnedMeansOneRow: a success reply is assumed to carry the id that was committed; malformed replies count as other transport failures.
- LaunchBudget.Submitter.LaunchOnce: every run is assumed to keep the timeout it is given; time passes only in runs and sleeps.
- GateRecord.ParsePrintInt: the parser leaves out underscores and digits outside ASCII, which the printer never writes.
- PytestSummary.PytestSummary: the pattern of a totals line is a parameter.
- GateRuns.OneGateComment: posted comments are assumed visible and trusted and are not edited or deleted, and a post arrives before its command ends or never; the statement is for each pull request, and `GateHeads.OneGateInAllIffHeadsDiffer` is for heads.
- GateDecision.NeedsGate: `unbound_approval`, the blocker and the delivery to the blackboard are not modelled beyond their comments being comments of others.
- SuppressionOutbox.Outbox.RecordSuppressed: writers in different processes and a line torn by a crash are not modelled; a file that is absent is an empty log, and task ids are strings.
- `cap_issue_body`: its conservation of characters follows from reading one body.
- The remaining part of `locations` (separators, slashes, prefixes), the path scoring and the registry file.
- The queue, pipeline, server and watch modules, all subprocess, HTTP, tmux, git and file access: they appear as nondeterministic inputs.
- Decision tables, environment parsing, prompts, log viewers and migration scripts: each is settled by reading it.
