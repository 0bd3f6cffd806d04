# Code agent: a Dafny model of its protocols and transactions

This project models the parts of the code agent in which several things can happen at once, or in which a
long chain of small updates has to add up: the precision edit engine, the MCP request multiplexer and its
server-sent-events transport, the blueprint sort, the ReAct loop together with the provider that rewrites its
transcript, the pruners, and the limiters and pools that bound resources. Files are a map from path to content;
lint verdicts, write failures, language-model replies, tool results, clocks and cancellations are arbitrary
parameters, so every statement holds for all of them.

The code is imperative, so it is modelled with loops, mutable fields and arrays. Each such method is tied to a
specification, and the properties are lemmas about that specification. What many threads do together (edits
under path locks, callers and reader of a connection, users of the agent pool) is a transition system with one
step per lock, read, write, send or receive, and the lemmas hold in every reachable state or for every run.

| file | models |
|---|---|
| `Text.dfy`, `Counting.dfy`, `Arithmetic.dfy`, `Decimal.dfy`, `Wrappers.dfy` | strings and lines, finite counting, division as in Go, decimal printing, optional values |
| `Matching.dfy`, `Hunks.dfy`, `HunkReading.dfy` | the match test; the hunk applier, where it puts its lines and why it refuses |
| `DiffPrinter.dfy`, `DiffReading.dfy` | the diff printer, and what its text tells a reader |
| `EditCalls.dfy`, `EditEngine.dfy` | the edit transactions, and the engine that carries them out |
| `EditAtomicity.dfy`, `SingleEdit.dfy`, `BatchEdit.dfy` | what the transactions promise about files; when an edit or a batch succeeds, what it is told, what it leaves |
| `EditBody.dfy`, `EditProtocol.dfy` | the same transactions one file access at a time, under path locks |
| `EditProgress.dfy`, `EditSerializability.dfy`, `EditLayouts.dfy` | edits never deadlock and always finish; interleaved edits end as if run one at a time, and exactly which sets of paths that is true of |
| `McpMultiplexer.dfy`, `McpGuarantees.dfy`, `McpDelivery.dfy` | callers and reader of one MCP connection, what holds in every reachable state, and which responses arrive |
| `SseTransport.dfy`, `SseRoundTrip.dfy` | the event-stream parser, and what it makes of a printed stream |
| `TopoSort.dfy`, `BlueprintOrder.dfy` | the wave sort on a graph, and of a blueprint in terms of its files and paths |
| `Conversation.dfy`, `AgentLoop.dfy`, `AgentRun.dfy`, `RunContents.dfy` | transcripts, the parts of a ReAct step, whole runs, and what their messages contain |
| `ToolCallDedupe.dfy`, `FaithfulCodec.dfy` | dropping repeated calls; a JSON codec and a digest that meet what is asked of the libraries |
| `AnthropicProvider.dfy`, `RoleCoalescing.dfy`, `ToolPairing.dfy`, `ConvertedContents.dfy` | message conversion, what it keeps, when the API accepts its result, and what that says |
| `HistoryPruner.dfy`, `PrunedHistory.dfy` | suffix pruning of a history; when its result is well-formed and what it costs |
| `ContextPruner.dfy`, `ContextMessages.dfy`, `ContextTranscript.dfy` | fitting code chunks and messages into a budget; when the fitted messages are well-formed |
| `Subsequences.dfy`, `PruningContents.dfy` | filtered sequences; what the pruners keep, message by message |
| `TokenBucket.dfy`, `BucketAccount.dfy`, `SweptAdmission.dfy` | the in-process limiter; what it grants, from request times alone; how much it admits when sweeps hand out fresh buckets |
| `RedisRateLimit.dfy`, `AgentPool.dfy` | the shared limiter and the pool |

`dafny verify dfyconfig.toml` checks everything.

## Where the code does not do what it promises

Each of these is stated with an input that shows it and the exact condition under which the promise holds.

- "Must match exactly once": a second match that overlaps the first is not counted (`Matching.CountOneNotUnique`). The
  check means uniqueness exactly for search texts that do not overlap a shifted copy of themselves
  (`Matching.CountOneIffUniqueExactly`).
- Printing a diff and applying it gives the new lines, but the new text only if the files share lines at the end or
  the change only appends empty lines (`DiffPrinter.RoundTripTextIff`); appending the line "b" to "a" comes back as "ab"
  and a newline (`DiffPrinter.RoundTripFails`).
- A multi-edit that names a path twice can report success and lose an edit (`EditAtomicity.RepeatedPathLosesEdit`): it
  applies all its edits exactly when those on one path ask for the same text (`EditAtomicity.MultiEditAtomic`).
- A multi-edit that fails at a write reports the operations before it as successes that were not rolled back, although
  they were; that happens exactly when a later write fails (`EditAtomicity.StaleSuccessIff`, and for
  all that a batch tells `BatchEdit.ToldOf`).
- Edits lock their target but not its backup file. Concurrent edits are serializable, whatever they contain, exactly
  when no call targets the backup of a file that a single edit changes without targeting that file too
  (`EditLayouts.SerializableIff`); for all other sets of paths there is a run that no serial order explains
  (`EditLayouts.ClashBreaks`).
- A call without an id makes the converted transcript one that the Messages API rejects
  (`ToolPairing.UnnamedCallUnpaired`, `ToolPairing.PairedIffNamed`).
- Pruning keeps a transcript well-formed exactly when the messages put in front of the suffix owe the results that the
  messages before the cut owed (`PrunedHistory.PrunedWellFormedIff`). It can cut between a call and its result
  (`PrunedHistory.PruningCanOrphan`), and it can put a pinned result in front without its call
  (`PrunedHistory.PinnedResultBreaks`). In a whole run this decides, cut by cut, whether every request is well-formed
  (`AgentRun.RunSoundIff`).
- Pruning is to fit the history into the budget: its cost is the sum in `PrunedHistory.TotalTokens`. For every budget
  and every text that costs more than 60% of it there is a history whose pruning exceeds it
  (`PrunedHistory.PruningCanExceed`).
- The other pruner, which puts pinned messages first and keeps the last four, keeps a transcript well-formed exactly
  when the pinned messages owe the results that the rest begins with (`ContextTranscript.ClassPrunedIff`); the last four
  can begin with the result of a call that is gone (`ContextTranscript.ClassPruningCanOrphan`).
- A response reaches a registered call, without the call being cancelled, exactly when the call is not already
  deregistering itself (`McpDelivery.ResponseReachesIff`); a waiting call always can return it.
- A call that begins after the connection's stream has failed is sent all the same and then waits until it is cancelled
  (`McpGuarantees.LateCallWaits`). Once the reader has stopped, a waiting call can return without being cancelled
  exactly when its response had been delivered (`McpGuarantees.ReturnsAfterStopIff`).
- Leading empty `data:` lines of an event are dropped, unlike in section 9.2.6 of the WHATWG HTML standard
  (`SseRoundTrip.EmptyFirstLineLost`, `SseRoundTrip.RoundTripIff`).
- Sweeping stale buckets goes unnoticed in every run exactly when ten windows and a tick refill a bucket to the brim
  (`TokenBucket.CleanupUnobservable`); otherwise draining a bucket and sweeping it when it turns stale is noticed
  (`TokenBucket.SweepNoticed`). The bound on what a key is admitted in an interval survives sweeps under almost the same
  condition: for windows of four ticks or more exactly when burst is at most ten times the rate
  (`SweptAdmission.LongWindows`), and for all windows as in `SweptAdmission.AdmissionBoundIff`.
- Services with different prefixes can share counters: prefix "a" with bucket "b:c" and prefix "a:b" with bucket "c"
  (`RedisRateLimit.ServicesCollide`). Two prefixes allow that exactly when one of them, with its colon, begins the other
  (`RedisRateLimit.PrefixesCollideIff`).
- The blueprint sort is topological exactly when the dependencies have no cycle (`TopoSort.TopologicalIffAcyclic`);
  with one, it still levels and orders every file that reaches no cycle.

## Model

| member | source | states |
|---|---|---|
| Matching.CountOneMeans | internal/orchestrator/edit_engine.go:141-152 | the count is 1 exactly when there is a match and none begins at or after its end |
| Matching.CountIsMost | internal/orchestrator/edit_engine.go:141-152 | the count told for an ambiguous text is the largest number of its matches that stand side by side |
| Matching.CountOneIffUniqueExactly | internal/orchestrator/edit_engine.go:141-152 | the test means "occurs exactly once" on every file if and only if the search text does not overlap a shifted copy of itself |
| Matching.CountOneNotUnique | internal/orchestrator/edit_engine.go:141-152 | a counterexample to uniqueness: "aa" in "aaa" |
| Matching.UniqueCountsOne | internal/orchestrator/edit_engine.go:141-152 | a text that does occur exactly once is accepted |
| Matching.ReplaceFirstSplits | internal/orchestrator/edit_engine.go:167-168 | the replacement changes the matched text and nothing around it |
| Hunks.ApplyHunks | internal/orchestrator/edit_engine.go:288-371 | the applier's loop, with its cursor and early errors, is the specification; no index is out of range for any input |
| Hunks.ApplyBody | internal/orchestrator/edit_engine.go:309-360 | the loop over one hunk body consumes and emits what the specification says, or fails with its error |
| Hunks.BodyAcceptedIff | internal/orchestrator/edit_engine.go:309-360 | one body is accepted exactly when its context and deleted lines match the original up to line endings, lines with no marker standing for any line or none at the end; where it then stops reading |
| Hunks.HunksAcceptedIff | internal/orchestrator/edit_engine.go:288-371 | any hunks are accepted exactly when in order, disjoint, inside the file and matching |
| Hunks.AcceptedHunksAreAnEdit | internal/orchestrator/edit_engine.go:288-371 | the result comes from an edit script: untouched lines survive in order, byte for byte, the deletions are the deleted lines, the insertions are all that is new, and the length is original - deletions + additions |
| Hunks.MisplacedHunksRejected | internal/orchestrator/edit_engine.go:296-307 | overlapping or past-end hunks are rejected |
| HunkReading.HunksLand | internal/orchestrator/edit_engine.go:288-371 | where the new lines stand: the original lines between the hunks stay, and in place of those each hunk stands for come its context and added lines in the order of its body |
| HunkReading.BodyErrorIff | internal/orchestrator/edit_engine.go:309-360 | a hunk body fails with a given error exactly when its first wrong line is wrong in that way: context or deletion, past the end or not matching |
| HunkReading.HunksErrorIff | internal/orchestrator/edit_engine.go:296-360 | hunks fail with a given error exactly when the first that is misplaced or has a wrong line is wrong in that way |
| DiffPrinter.GenerateUnifiedDiff | internal/orchestrator/edit_engine.go:611-696 | the sentinel exactly for equal texts; otherwise file header, hunk header and hunk of the split into common head, change and common tail, cut after 5000 characters |
| DiffPrinter.FindChange | internal/orchestrator/edit_engine.go:619-647 | the scans find the longest common head, and the longest common tail that does not meet it |
| DiffPrinter.RoundTripLines | internal/orchestrator/edit_engine.go:611-691 | applying the printed hunk to the old text always succeeds and gives the new text's lines, terminators aside |
| DiffPrinter.RoundTripTextIff | internal/orchestrator/edit_engine.go:611-691 | the text itself comes back exactly when there is a common tail or only empty lines were appended |
| DiffPrinter.OnlyBlankMeansNewlines | internal/orchestrator/edit_engine.go:611-691 | the second case of that condition: the new text is the old one plus newlines |
| DiffPrinter.RoundTripFails | internal/orchestrator/edit_engine.go:611-691 | the failing input: "a" with the line "b" added comes back as "ab" and a newline |
| DiffPrinter.HeaderMatchesBody | internal/orchestrator/edit_engine.go:663-689 | the counts in the @@ header are the numbers of old-side and new-side lines printed, as in the unified format of POSIX diff |
| DiffReading.ReadsBack | internal/orchestrator/edit_engine.go:661-689 | reading the printed text gives back the file name, the two ranges and the body of its hunk |
| DiffReading.PrintedTextApplies | internal/orchestrator/edit_engine.go:611-696 | an uncut printed text names its file, states the counts of its lines, and the hunk read from it turns the old text into the new text's lines |
| DiffReading.ContextShown | internal/orchestrator/edit_engine.go:647-689 | three lines of context stand on each side of the change, or all there are |
| EditEngine.Engine.ApplyEdit | internal/orchestrator/edit_engine.go:120-210 | read, match, back up, write, lint, roll back: the final files and outcome of the transaction, for every failure |
| EditEngine.Engine.ApplyUnifiedDiff | internal/orchestrator/edit_engine.go:213-285 | the same for a diff |
| EditEngine.Engine.ApplyMultiEdit | internal/orchestrator/edit_engine.go:379-461 | validate all, write all, lint all, roll back on any failure: final files, outcome, and for each operation its success and rolled-back flags or no entry |
| EditEngine.Engine.WriteAll | internal/orchestrator/edit_engine.go:413-430 | phase 2 writes in order and rolls back at the first failing write, whatever that write left behind |
| EditEngine.Engine.RollbackAll | internal/orchestrator/edit_engine.go:463-469 | the restore loop over the backups in the order the map yields them |
| EditAtomicity.SingleEditOutcome | internal/orchestrator/edit_engine.go:120-210 | a single edit succeeds exactly when read, change, write and lint do, and then changes only its file; refused edits change nothing, rolled-back ones restore; after a failed write the original is still in the file or its backup |
| SingleEdit.ReplaceSucceedsIff | internal/orchestrator/edit_engine.go:133-210 | a replacement succeeds exactly when the file can be read, the text has a sole match, the write works and the lint is clean; then the file has the new text there and is otherwise as it was |
| SingleEdit.ReplaceRefusedIff | internal/orchestrator/edit_engine.go:133-158 | it is refused, changing nothing, exactly when the text has no match or several side by side; which of the two is told, with their number |
| SingleEdit.PatchSucceedsIff | internal/orchestrator/edit_engine.go:213-285 | a parsed diff is applied exactly when the file can be read, its hunks are in order, disjoint, inside the file and matching, the write works and the lint is clean; the file is then the result of an edit script with its deleted and added lines |
| SingleEdit.PatchLands | internal/orchestrator/edit_engine.go:213-285 | and has each hunk's context and added lines in place of the lines it stands for |
| SingleEdit.PatchRefusedFor | internal/orchestrator/edit_engine.go:236-241 | it is refused with an error exactly when the first misplaced or wrong hunk has that error |
| SingleEdit.FailureIs | internal/orchestrator/edit_engine.go:133-205 | which failure is told: the read, the write, or the lint with or without a working restore; and what a failed write leaves |
| SingleEdit.BackupIs | internal/orchestrator/edit_engine.go:158-205 | what is in the backup after every outcome |
| EditAtomicity.MultiEditAtomic | internal/orchestrator/edit_engine.go:379-469 | any batch, with working restores: success exactly when every operation is valid, written and clean; otherwise every file is as before; on success the last operation on each path is applied, and all operations exactly when those on one path agree; no other file changes |
| EditAtomicity.RepeatedPathKeepsLast | internal/orchestrator/edit_engine.go:412-416 | in any batch that succeeds a path ends with the last replacement asked for it, made in the original content |
| EditAtomicity.RepeatedPathLosesEdit | internal/orchestrator/edit_engine.go:412-430 | a batch that succeeds and loses an edit: "a" to "x" and "b" to "y" in "ab" gives "ay" |
| EditAtomicity.StaleSuccessIff | internal/orchestrator/edit_engine.go:413-430 | a failed batch reports an operation as a success that was not rolled back exactly when its write worked and a later one failed; its file is as before all the same |
| EditAtomicity.RollbackRestores | internal/orchestrator/edit_engine.go:463-469 | rollback restores every saved file whose own restoring write works, whatever the others do and in every order, and touches no file that was not saved |
| BatchEdit.StoppedBy | internal/orchestrator/edit_engine.go:387-461 | the outcome of any batch, whatever fails: the first operation whose file cannot be read or whose text has no sole match, with the number of matches; else the first failing write; else the lint verdicts; else success |
| BatchEdit.ToldOf | internal/orchestrator/edit_engine.go:379-461 | what the caller is told about each operation, from the operations and the files alone |
| BatchEdit.FailedFileRestored | internal/orchestrator/edit_engine.go:463-469 | all or nothing file by file, when restores fail: after a failed batch every file no operation names, or whose own restoring write works, is as before |
| EditBody.RunIsSpec | internal/orchestrator/edit_engine.go:131-210 | run alone, the single file accesses of a call add up to its transaction |
| EditBody.RunLocal | internal/orchestrator/edit_engine.go:131-210 | a call depends on and changes only its own targets and their backups |
| EditProtocol.LockPaths | internal/orchestrator/edit_engine.go:75-98 | the acquisition order is the call's distinct paths, sorted |
| EditProtocol.StepLockInv | internal/orchestrator/edit_engine.go:60-98 | every step of every call keeps the lock invariant: a lock is held by exactly the call that owns it |
| EditProgress.SomeoneCanStep | internal/orchestrator/edit_engine.go:60-98 | with an unfinished call, some call is not blocked: the one waiting for the largest path finds it free |
| EditProgress.NoDeadlock | internal/orchestrator/edit_engine.go:60-98 | in every reachable state with an unfinished call some call can step, and every run is finite, with an explicit bound |
| EditSerializability.Serializable | internal/orchestrator/edit_engine.go:60-285 | any interleaving of any number of edits, diffs and multi-edits ends with the files and outcomes of running them one at a time in lock-point order, unless one targets the backup of another's file |
| EditLayouts.SerializableIff | internal/orchestrator/edit_engine.go:75-98 | for a set of calls given by kind and target paths: every finished run, whatever the edits, files, schedule and failures, ends as some serial run, if and only if no call targets the backup of a file that a single edit changes without targeting that file too |
| EditLayouts.ClashBreaks | internal/orchestrator/edit_engine.go:157-165 | for every other such set, calls, files and a schedule whose end no serial order explains |
| McpMultiplexer.StepInv | internal/mcp/client.go:258-435 | every step of a caller or the reader keeps the connection invariant |
| McpGuarantees.Bookkeeping | internal/mcp/client.go:383-435 | ids are unique, inflight counts the calls in progress, no finished call's id stays in pending |
| McpGuarantees.OwnResponseOnly | internal/mcp/client.go:277-290 | a call gets at most one response, and only one carrying its own id, as section 5 of the JSON-RPC 2.0 specification asks |
| McpGuarantees.DeliveredOnce | internal/mcp/client.go:277-290 | nothing is put twice on a call's channel |
| McpGuarantees.ReaderNeverBlocks | internal/mcp/client.go:285-336 | every channel in pending is empty, so the reader never blocks, not even while draining with the lock held |
| McpGuarantees.HolderCanMove | internal/mcp/client.go:278-337 | whoever holds the connection lock can move |
| McpGuarantees.NoLostWakeup | internal/mcp/client.go:402-435 | a waiting call is registered, or has its response, or is about to be handed it |
| McpDelivery.PassedOverIff | internal/mcp/client.go:276-292 | the reader passes over a frame, changing nothing, exactly when it has a method or no id |
| McpDelivery.NothingInvented | internal/mcp/client.go:276-336 | whatever is put on a call's channel came from the server, with an id and no method, or is the error of a drain |
| McpDelivery.NeverDropped | internal/mcp/client.go:277-290 | once the response to a registered call has come in, then in every run it is on its way to that call or has reached it, unless the call deregisters itself |
| McpDelivery.ResponseReachesIff | internal/mcp/client.go:277-290 | from every reachable state, a response to a registered call can be put on its channel without the call being cancelled if and only if the call is not already deregistering itself |
| McpDelivery.ResponseReturned | internal/mcp/client.go:421-430 | a waiting call can then return that very response, or its error |
| McpDelivery.FailureHasCause | internal/mcp/client.go:383-435 | a call returns that it was cancelled, not sent or not encoded exactly when that happened; all others return their reply |
| McpGuarantees.DrainAnswersAll | internal/mcp/client.go:321-338 | after an error drain every call registered at that moment has an answer with its own id, which is the scanner error |
| McpGuarantees.NoAnswerAfterStop | internal/mcp/client.go:321-338 | a call without a response when the reader has stopped, even one that has not begun, never returns one |
| McpGuarantees.ReturnsAfterStopIff | internal/mcp/client.go:421-435 | after the stop some continuation without cancellation brings a waiting call back exactly when its response had been delivered |
| McpGuarantees.LateCallWaits | internal/mcp/client.go:402-435 | the run that shows it: the stream fails and is drained, then a call is registered and sent, and waits |
| SseTransport.Transport.Recv | internal/mcp/transport_sse.go:165-235 | one call delivers what the line grammar says, leaves the rest of the stream unread and the post URL at the last endpoint passed |
| SseRoundTrip.RecvDelivers | internal/mcp/transport_sse.go:165-235 | on any printed stream, with comments and unknown fields between events and inside them, names before, between or after the data lines, endpoints, unknown events and a cut-off last line, successive calls deliver exactly the messages in order |
| SseRoundTrip.ArrivesIffClean | internal/mcp/transport_sse.go:184-228 | a payload arrives unchanged exactly when its first line is non-empty and no line ends in a carriage return |
| SseRoundTrip.RoundTripIff | internal/mcp/transport_sse.go:165-235 | the payloads received are the payloads sent if and only if all messages are such, and the post URL ends at the last endpoint |
| SseRoundTrip.EmptyFirstLineLost | internal/mcp/transport_sse.go:213-228 | a payload that arrives changed: its first line is empty |
| SseRoundTrip.BlankOptional | internal/mcp/transport_sse.go:217-228 | the blank after the colon of a name or data line is optional |
| SseRoundTrip.TrimSpaceIs | internal/mcp/transport_sse.go:218-219 | a name is read without the white space at its ends, all of it and nothing else |
| TopoSort.BuildGraph | internal/generator/generator.go:279-294 | in-degrees and reverse edges of the dependency graph, counting duplicates, ignoring unknown names, last file of a name winning |
| TopoSort.Visit | internal/generator/generator.go:306-314 | visiting a file lowers its dependents' counts and queues those that reach zero, each once |
| TopoSort.AssignPriorities | internal/generator/generator.go:303-317 | on any graph the waves end having visited, exactly once each, precisely the files with no transitive dependency on a cycle, and given each its level |
| TopoSort.SettledIff | internal/generator/generator.go:303-317 | a wave settles exactly the files whose chains are no longer than its number |
| TopoSort.EventuallySettledIff | internal/generator/generator.go:303-317 | the settled files are exactly those that reach no cycle |
| TopoSort.LevelIsLongestChain | internal/generator/generator.go:276-277 | a level is the length of the longest dependency chain |
| BlueprintOrder.GraphOfIff | internal/generator/generator.go:279-294 | a file depends on another exactly when it names its path and no later file has that path |
| BlueprintOrder.ProjectBlueprint.TopoSort | internal/generator/generator.go:278-323 | all files, each once, unchanged but for their priorities, by ascending priority and stably; a priority is the length of the longest chain of named paths, and stays what it was for files whose chains run into a cycle |
| BlueprintOrder.AfterItsDependencies | internal/generator/generator.go:276-323 | in the final list each file whose chains do not run into a cycle stands after the last-listed file of every path it names |
| BlueprintOrder.InOrderIff | internal/generator/generator.go:276-323 | the whole list is in dependency order exactly when no file's chains run into a cycle |
| TopoSort.SortedFilesAreLevelled | internal/generator/generator.go:276-323 | on any graph, every file that reaches no cycle has the length of its longest chain as its priority |
| TopoSort.SortedFilesAreTopological | internal/generator/generator.go:276-323 | and comes after all its known dependencies |
| TopoSort.TopologicalIffAcyclic | internal/generator/generator.go:276-323 | the whole list is in dependency order exactly when there is no cycle |
| Conversation.AnsweredInOrder | internal/agentloop/runner.go:150-207 | what well-formed means: system messages aside, each assistant message is followed by one tool message per call, same ids and order, and then by something else |
| AgentLoop.ConsecutiveFailureTracker.Track | internal/agentloop/failure_tracker.go:27-40 | a step-back is due exactly when the current run of failures of one tool has reached 3 |
| AgentLoop.StreakIff | internal/agentloop/failure_tracker.go:24-40 | that run is at least k exactly when the last k outcomes are failures of one tool |
| AgentLoop.ExecuteTools | internal/agentloop/runner.go:155-208 | one tool message per call in order, a step-back prompt exactly after each result that extends a fix loop |
| AgentLoop.ResultsSettle | internal/agentloop/runner.go:155-208 | the results settle the calls of the assistant message one by one |
| AgentLoop.ChatWithRetry | internal/agentloop/runner.go:100-125 | the reply is the first success or the last failure, cancelled only in a wait after a failure |
| AgentRun.Run | internal/agentloop/runner.go:52-213 | the whole run, step by step: a request is what the last step left with its reflections, pruned when over budget; a step leaves its request, the reply with its distinct calls, their results and the step-back prompts; why the run ends, whether the last step still asked the model, and what is returned then |
| AgentRun.RunDetermined | internal/agentloop/runner.go:52-213 | nothing is left open: replies, results and cancellations fix the steps, the ending and the result |
| AgentRun.GrowsBetweenCuts | internal/agentloop/runner.go:65-208 | from one pruning to the next each request extends the one before it and, system messages aside, adds exactly the replies with their distinct calls and the results; well-formed if that was |
| AgentRun.GrowsFromHistory | internal/agentloop/runner.go:57-208 | before the first pruning they extend the history in the same way |
| AgentRun.RunSoundIff | internal/agentloop/runner.go:52-213 | from a well-formed history, every request the model is sent is well-formed if and only if every pruning is sound; then so are the returned messages, and a request converts to a list the API accepts exactly when no call id is empty |
| AgentRun.CutIff | internal/agentloop/runner.go:86-94 | fitting well-formed messages into the budget leaves them well-formed exactly when the cut, if there is one, is sound: what is put in front of the suffix owes what it replaces owed |
| RunContents.StepAdds | internal/agentloop/runner.go:146-196 | a whole step keeps its request and, system messages aside, adds the reply's own text with its distinct calls and then, for each call, what its own tool said, under its own id |
| RunContents.StepCallsAre | internal/agentloop/runner.go:140-152 | the calls of a step are those of its reply that no earlier one is the same as, in order |
| RunContents.RunSays | internal/agentloop/runner.go:52-213 | what a run without pruning returns is its history and, system messages aside, every reply and every call's own result, in order |
| RunContents.OutcomesSoFar | internal/agentloop/runner.go:183-205 | the failures counted are those of every call so far, in order, each under its own tool |
| RunContents.StepPrompts | internal/agentloop/runner.go:194-206 | after every result stands one step-back prompt with tool and count if that tool has now failed three times in a row or more, and none otherwise |
| RunContents.RequestThatFits | internal/agentloop/runner.go:75-94 | a request that fits is what the last step left and, with reflection on, one prompt at every tenth step and one when it is needed |
| ToolCallDedupe.Canonicalise | internal/agentloop/dedupe_tool_calls.go:114-141 | rebuilding a value key by key, arrays in place, gives the same value: key order is irrelevant at every depth |
| ToolCallDedupe.SameKeyIff | internal/agentloop/dedupe_tool_calls.go:61-107 | two calls share a key exactly when names match and arguments are both empty, both malformed and equal, or both valid and decode to the same value |
| FaithfulCodec.Witness | internal/agentloop/dedupe_tool_calls.go:76-141 | what is asked of the JSON library and the digest can be met: a self-delimiting encoding with its inverse, and an injective digest |
| ToolCallDedupe.DedupeToolCalls | internal/agentloop/dedupe_tool_calls.go:53-74 | the loop keeps exactly the first call of each class, in input order |
| ToolCallDedupe.KeptDistinct | internal/agentloop/dedupe_tool_calls.go:48-52 | no two kept calls are the same call |
| ToolCallDedupe.EveryCallRepresented | internal/agentloop/dedupe_tool_calls.go:48-52 | every call has a kept call it is the same as |
| ToolCallDedupe.DedupeIdempotent | internal/agentloop/dedupe_tool_calls.go:53-74 | a second pass changes nothing |
| AnthropicProvider.CoalesceConsecutiveRoles | internal/llm/anthropic_provider.go:433-448 | the loop that extends the last message in place is the coalescing fold |
| AnthropicProvider.ConvertMessages | internal/llm/anthropic_provider.go:308-429 | roles, blocks, "(continue)", coalescing; the system text is the in-order join of the system messages |
| RoleCoalescing.CoalesceIsTheAlternatingList | internal/llm/anthropic_provider.go:431-448 | coalescing gives the one list that alternates and says the same blocks in the same order |
| RoleCoalescing.CoalesceIdempotent | internal/llm/anthropic_provider.go:431-448 | coalescing twice is coalescing once, for every list |
| RoleCoalescing.ConvertedAlternates | internal/llm/anthropic_provider.go:387-424 | the converted list opens with the user, strictly alternates and loses no block |
| ToolPairing.ConvertedPairs | internal/llm/anthropic_provider.go:328-424 | converting a transcript message by message, every call is answered at the head of the next user message but for the results still owed, exactly as long as no result comes without a call id |
| ToolPairing.ConvertedBalance | internal/llm/anthropic_provider.go:340-378 | calls minus results in the converted list count the owed results and the results that were turned into text |
| ToolPairing.PairedIffNamed | internal/llm/anthropic_provider.go:405-424 | all matching results stand at the head of the message right after their calls, if and only if no call id is empty |
| ToolPairing.UnnamedCallUnpaired | internal/llm/anthropic_provider.go:340-378 | a well-formed transcript for which they do not: its call has no id |
| ConvertedContents.ConvertedConveys | internal/llm/anthropic_provider.go:308-424 | the converted list says the transcript: texts, calls with id, name and input, results under their ids, in order and by the right side; nothing else but a leading "(continue)" when the assistant would open |
| ConvertedContents.SystemTextIs | internal/llm/anthropic_provider.go:309-429 | the system text is the contents of the system messages, in order, with an empty line between two |
| HistoryPruner.CountFitting | internal/agentloop/pruner.go:37-50 | the backward count stops exactly where one more unpinned message would exceed the budget |
| HistoryPruner.PruneMessages | internal/agentloop/pruner.go:13-82 | the whole result: first message, notice with both counts, pinned messages, suffix |
| HistoryPruner.SuffixWithinBudget | internal/agentloop/pruner.go:37-56 | unless the minimum of 4 applied, the suffix's unpinned tokens fit the budget although the slice counts all messages |
| HistoryPruner.NothingLost | internal/agentloop/pruner.go:58-81 | first message first, every pinned message and the suffix present, kept and reported-pruned messages add up |
| HistoryPruner.PinnedSuffixRepeated | internal/agentloop/pruner.go:78-80 | pinned messages of the suffix appear twice |
| PruningContents.PrunedParts | internal/agentloop/pruner.go:20-81 | the first message, the notice, exactly the pinned messages in their order, and the last messages as they were |
| PruningContents.FillsItsShare | internal/agentloop/pruner.go:18-50 | the suffix is as long as fits: one more unpinned message would take it, with the pinned ones, past 60% of the budget |
| PruningContents.RemovedCounts | internal/agentloop/pruner.go:58-68 | the two numbers reported are those of the unpinned messages between the first and the suffix, and of the tool messages among them |
| PruningContents.NoticeTells | internal/agentloop/pruner.go:70-77 | reading the notice gives both numbers back |
| PrunedHistory.PrunedWellFormedIff | internal/agentloop/pruner.go:70-81 | a pruned transcript, whatever is pinned in it, is well-formed exactly when the messages put in front of the suffix owe the results that those before the cut owed |
| PrunedHistory.PlainPrunedIff | internal/agentloop/pruner.go:70-81 | when no call or result is pinned or first: exactly when the cut is not between a call and its results |
| PrunedHistory.PruningCanOrphan | internal/agentloop/pruner.go:51-81 | for every positive budget and every text costing more than 60% of it, a well-formed history that is cut there |
| PrunedHistory.PinnedResultBreaks | internal/session/manager.go:964-999 | a history with a pinned result, cut at a settled point, whose pruning is not well-formed |
| PrunedHistory.TotalTokens | internal/agentloop/pruner.go:10-12 | what the pruned history costs: first message, notice, pinned messages, and the suffix with its pinned messages again |
| PrunedHistory.TotalTokensBound | internal/agentloop/pruner.go:37-56 | unless the minimum of 4 applied: at most 60% of the budget or the pinned messages, plus first message, notice and the pinned messages of the suffix |
| PrunedHistory.PruningCanExceed | internal/agentloop/pruner.go:10-12 | for every positive budget and every text costing more than 60% of it, a history whose pruning exceeds the budget |
| ContextPruner.SelectGreedily | internal/context/pruner.go:199-208 | the selection is within budget and each chunk left out exceeds it together with the kept chunks scoring at least as high |
| ContextPruner.PruneCodeChunks | internal/context/pruner.go:134-227 | everything when it fits, otherwise the selected chunks in original order, within budget |
| ContextPruner.NothingFitsBack | internal/context/pruner.go:199-208 | no chunk left out can be added back |
| PruningContents.PickPicks | internal/context/pruner.go:211-227 | exactly the selected chunks, in their original order |
| ContextMessages.FillMiddle | internal/context/pruner.go:357-367 | which older messages are kept: from the most recent backwards, each exactly when the kept messages after it leave room for it and have not used up the budget |
| ContextMessages.PruneMessages | internal/context/pruner.go:301-377 | the whole result: everything, compacted, when it fits; otherwise system and pinned messages, that choice of the older ones, and the last four |
| ContextMessages.MandatoryAndMiddle | internal/context/pruner.go:321-358 | the messages kept in any case and those that compete for the rest are all messages, each once |
| ContextMessages.ResultWithinBudget | internal/context/pruner.go:342-374 | the result exceeds the budget only when the messages kept in any case do, and then no other message is kept |
| PruningContents.ClassFiltered | internal/context/pruner.go:321-336 | each class holds exactly its messages, in order |
| PruningContents.PickFromPicks | internal/context/pruner.go:357-367 | the chosen older messages stay in order |
| PruningContents.TruncatedKeeps | internal/context/pruner.go:243-260 | a tool result of more than 2000 bytes keeps its first and last 1000 and says how much is left out; nothing else changes |
| PruningContents.HumanBytesTells | internal/context/pruner.go:262-271 | sizes are told in whole bytes, kilobytes or megabytes, rounded down |
| ContextTranscript.WellFormedAtIff | internal/context/pruner.go:369-374 | at any point, a transcript is well-formed exactly when what comes after needs the results owed there |
| ContextTranscript.ClassPrunedIff | internal/context/pruner.go:369-374 | the fitted messages are well-formed exactly when the pinned ones owe the results that the kept others need in front of them |
| ContextTranscript.UnpinnedPrunedIff | internal/context/pruner.go:338-374 | with nothing pinned, fitting a well-formed transcript: exactly when the older messages that are kept owe what all the older ones owed |
| ContextTranscript.ClassPruningCanOrphan | internal/context/pruner.go:338-374 | for every positive budget and every text of which three use it up, a well-formed transcript for which they do not |
| TokenBucket.PerUserRateLimiter.Allow | internal/auth/ratelimit.go:96-123 | answer and new bucket, other keys untouched |
| TokenBucket.PerUserRateLimiter.Cleanup | internal/auth/ratelimit.go:80-93 | a sweep deletes exactly the stale buckets |
| TokenBucket.TokensInRange | internal/auth/ratelimit.go:96-123 | tokens stay at least 0 and, after a request, below burst |
| TokenBucket.TenWindowsSuffice | internal/auth/ratelimit.go:36-37 | burst at most ten times the rate is enough for that |
| TokenBucket.CleanupUnobservable | internal/auth/ratelimit.go:80-123 | in every run, with any interleaving of sweeps, every next request is answered, and leaves its bucket, as without them, if and only if burst is at most what a stale bucket's idle time refills |
| TokenBucket.SweepNoticed | internal/auth/ratelimit.go:80-93 | otherwise, the run that shows it: burst requests, then a sweep as soon as the bucket is stale |
| TokenBucket.AdmissionBound | internal/auth/ratelimit.go:96-123 | when a stale bucket's idle time refills it: in any interval of length T a key is admitted at most burst + rate * (T / window + 1) times, whatever the sweeps |
| BucketAccount.GrantedIff | internal/auth/ratelimit.go:96-123 | for every configuration and every run without sweeps, from request times and admissions alone: a request is granted exactly when, since no refill and not since the bucket was made, the key has been admitted burst times plus rate for every whole window between the refills since then |
| BucketAccount.WaitingLosesNothing | internal/auth/ratelimit.go:105-121 | requests that would all be granted now would all be granted at any later time, after any run, with sweeps or without |
| SweptAdmission.AdmissionBoundIff | internal/auth/ratelimit.go:80-123 | that bound holds in every interval of every run, with sweeps at any time, if and only if a stale bucket refills, or the window is 2 or 3 ticks and the rate covers what a fresh bucket holds beyond ten refills |
| SweptAdmission.LongWindows | internal/auth/ratelimit.go:80-123 | for windows of four ticks or more: if and only if burst is at most ten times the rate |
| SweptAdmission.CyclesBreak | internal/auth/ratelimit.go:80-123 | the run that breaks it: empty a bucket, sweep it as soon as it is stale, and again |
| Decimal.Itoa | internal/auth/redis_ratelimit.go:141-161 | the buffer loop prints the decimal form of every 64-bit integer but the least, for which it prints "-" |
| Decimal.ParsePrint | internal/auth/redis_ratelimit.go:141-161 | the printed form determines the number |
| RedisRateLimit.Redis.RunRateLimitScript | internal/auth/redis_ratelimit.go:63-72 | the script increments one counter, sets its expiry on a count of 1, and compares with the limit |
| RedisRateLimit.RedisRateLimiter.Allow | internal/auth/redis_ratelimit.go:79-95 | one call changes only the counter of its bucket and epoch; when Redis cannot be reached it admits and changes nothing, when only the reply is lost it admits and counts |
| RedisRateLimit.KeyInjective | internal/auth/redis_ratelimit.go:25-28 | under one prefix, buckets and epochs never share a key |
| RedisRateLimit.KeysCollideIff | internal/auth/redis_ratelimit.go:79-81 | under any two prefixes they share a key exactly when the epochs are equal and prefix, colon and bucket run together |
| RedisRateLimit.PrefixesCollideIff | internal/auth/redis_ratelimit.go:39-42 | two services can share a counter exactly when one prefix, with its colon, begins the other |
| RedisRateLimit.ServicesCollide | internal/auth/redis_ratelimit.go:39-42 | two different prefixes that do |
| RedisRateLimit.CountersCount | internal/auth/redis_ratelimit.go:63-95 | the TTL never ends a counter inside its own epoch: it holds the exact number of requests |
| RedisRateLimit.AdmittedPerEpoch | internal/auth/redis_ratelimit.go:63-95 | each epoch admits exactly min(limit, requests) per bucket, for any number of replicas |
| RedisRateLimit.SpanBound | internal/auth/redis_ratelimit.go:16-24 | any half-open span of one window admits at most twice the limit |
| RedisRateLimit.SpanBoundTight | internal/auth/redis_ratelimit.go:19-24 | and that is reached around an epoch boundary |
| AgentPool.Pool.Acquire | internal/multiagent/agent_pool.go:30-44 | uninterrupted, the two steps of acquiring: take a slot, then the last idle agent or a new one |
| AgentPool.Pool.Release | internal/multiagent/agent_pool.go:47-53 | uninterrupted, the two steps of releasing: park the agent, then free the slot |
| AgentPool.StepInv | internal/multiagent/agent_pool.go:30-53 | every step of every worker keeps the pool invariant |
| AgentPool.PoolBound | internal/multiagent/agent_pool.go:18-53 | no agent is held twice, at most maxParallel are held, held plus idle is created per type, and at most maxParallel of a type are ever created |
| AgentPool.WaiterNotStuck | internal/multiagent/agent_pool.go:31-52 | a worker waiting for a slot can have one, or some worker that has one can move |

## Left out

- The text parser of unified diffs, lint commands, file-system calls, HTTP, Docker, Git, logging, metrics and the UI: parsed hunks, lint verdicts, read and write results are parameters.
- Paths are canonical; two spellings of one file in a multi-edit are two keys in the code and are not modelled. Symbolic links and the workspace boundary check are left out.
- The tools that write files without the edit locks.
- The messages and diff previews in the results of edits; the success and rolled-back flags of a batch are modelled, a single edit's follow from its outcome.
- A round trip through a printed diff is about the whole hunk, not about a text cut at 5000 characters.
- 64-bit overflow, except in decimal printing.
- Concurrency is modelled by transition systems (`EditProtocol`, `McpMultiplexer`, `AgentPool`) instead of classes with mutexes and channels; aliasing of the connection's maps is not represented.
- MCP progress channels, reconnection, the tool index, and closing a connection.
- `Alive`, `lastRecv` and the debug log of the event-stream transport, and closing it from another thread during a read.
- The content of tool results (truncation, error hints), reflection and step-back texts: they are parameters; only where such messages stand is modelled. Event sinks are left out.
- Prompt-cache markers and tool definitions of the provider, message ids, timestamps and metadata.
- SHA-256 is taken not to collide, the JSON encoder to encode different decoded values differently, and its encodings to decode (`ToolCallDedupe.Faithful`; `FaithfulCodec.Witness` is a codec that does). Numbers are 64-bit patterns that are only compared.
- Chunk scores are arbitrary numbers and the order of equal scores is arbitrary; how scores are computed is left out.
- Strings stand for byte sequences where the code counts bytes (truncated tool results, event-stream lines).
- Sweeps come at any time, not only every five minutes.
- Buckets of the in-process limiter are values in a map instead of shared pointers; the mutex that serialises its calls is implicit in the sequence of events.
- RedisRateLimit: a request reads the clock and runs the script at the same instant, the clock is shared, and the window is a whole number of seconds.
- RedisRateLimit.AdmittedPerEpoch: counts runs in which Redis answers; a request whose reply is lost is admitted whatever the count, as `RedisRateLimit.RedisRateLimiter.Allow` says. The same goes for `RedisRateLimit.SpanBound`.
