# Verified models of the OrcaOps history converter, evaluator protocol and evaluator runner

Dafny models of the algorithmic core of OrcaOps, with proofs of what that core is for. Code that
changes state step by step is modelled as methods and classes and proved against a
specification; the promises are then theorems about the specification. `dafny verify
dfyconfig.toml` checks everything.

| files | what they model |
|---|---|
| `CodeUnits`, `Sequences`, `Options`, `Bytes`, `Lines` | UTF-16 text and its order, sequences as sets, words read from bytes, text as lines |
| `Representation`, `RepresentationOutcomes` | when two retained copies of an event log agree, which one stands for all, and what is said of each |
| `PrecedenceOrder`, `ReplayOrder` | greedy topological orders, and the loop over an array heap that finds one |
| `UsageHistory`, `UsagePicking`, `UsageEdges`, `UsageSelection`, `UsageTheorems`, `UsageAccount`, `UsageReplay`, `UsageOutcomes`, `UsageChoices`, `UsageContinuation` | merging several retained usage ledgers into one replay order, with an account of every occurrence, and what a ledger repeated by a longer one changes |
| `SubprocessLifecycle`, `SubprocessReports`, `SubprocessRunner`, `OutputCollector` | one bounded subprocess as a timed state machine, what its result says of the run, the object that runs it, and its byte-capped output |
| `WalChecksum`, `WalReconstruction`, `WalByteOrder`, `WalImage`, `WalTheorems`, `WalWriter`, `WalAcceptance`, `WalIndex`, `WalIndexWriter` | rebuilding a SQLite image from a main file and its write-ahead log, the check against the shared-memory file, and the writers of such logs and shared-memory headers that the readers invert |
| `FindingsFences`, `FenceRules`, `JsonKeys` | reading the findings block out of a response, and finding repeated object keys |
| `GlobTraversal`, `GlobPaths` | whether a glob asks for content below a directory |
| `TerminalFormatting`, `TerminalSequences`, `DetectionNormalization`, `RedactionRanges`, `SecretDetection`, `SecretCoverage`, `DiffRedaction`, `DiffRows` | stripping terminal sequences, normalizing text for detection, merging and redacting secret ranges, redacting unified diffs |
| `EvaluatorDispatch`, `WorkerPool` | dispatching one evaluator through its consent gate and its filter to an engine, and the worker pool with its interleavings |

How the models are set up:

- Text is a sequence of UTF-16 code units, bytes are integers below 256, and 32-bit sums wrap
  explicitly (`Bytes.Wrap`). JavaScript numbers stay far below the point where they lose precision.
- A SHA-256 key is the number its hexadecimal digits spell. Digests of one length compare as
  those numbers do (`CodeUnits.DigestOrder`), which is all the merge uses of them.
- What the code only calls is a parameter: the redactor of a payload, the hash of a key, the
  snapshot identity in a payload, what the secret patterns and the private-key scan match
  (`SecretDetection.Finder`), whether a path segment matches a selector, how a JSON string token
  decodes, what the evaluator filter decides, whether a provider is available, what an engine returns.
- `SecretDetection.SanePatterns` is the one assumption about the patterns: a match is named, not
  empty, in bounds, and does not begin with the bracket the redaction marker begins with.
- The subprocess runs over an explicit clock. Whether a signal is delivered and whether a group
  looks empty are free at every step. Safety holds for any timing; the bounds hold when timers
  fire on time. The worker pool is a machine whose steps are the stretches between awaits, so an
  interleaving is any sequence of enabled steps.
- A proof that only joins lemmas starts with `hide`, naming the functions it has no need to unfold.
- An error is a value. The converter's conflicts all become one outcome; the fence reader and the
  log reader keep their reasons apart.

Where the code and its documentation disagree: `subprocess.ts:117-122` says that `killed_reason`
is null when the process exited on its own. A leader that exits by itself while its streams are
still open waits up to 200 ms for them, and a timeout, abort or overflow in that window still
signals the group and is reported. `SubprocessLifecycle.ExitedButReportedAsTimedOut` is such a
run, and `SubprocessLifecycle.ReasonReportedExactlyWhenRequested` says exactly when a reason is
reported. `findings-block.ts:60-78` presents its fences as those of CommonMark; the code also trims
any Unicode space before a fence and after a closing one (`FindingsFences.NoBreakSpaceIsTrimmed` is
such a line), and the proofs are about what the code takes for a fence. `findings-block.ts:75-78`
promises that a response cut off in a block is unreadable. A line of the block that starts as a
closing fence does, cut just after that start, closes the block: `FindingsFences.CutReadsAsWhole` is
such a response, and `FindingsFences.CutResponse` says what any cut reads as. The bound proved for a killed run (`KillSettlesInTime`) is the kill deadline plus twice
the confirmation window plus one poll.

## Model

| member | source | states |
|---|---|---|
| `CodeUnits.SortForgetsOrder` | packages/history-convert/src/usage-selection.ts:68-72 | sorting distinctly named sources gives the same list whatever order they came in, and whether the names are distinct does not depend on it either |
| `CodeUnits.DigestOrder` | packages/history-convert/src/usage-selection.ts:56-59 | equally long hexadecimal digests compare unit by unit exactly as the numbers they spell |
| `Representation.ConflictIsSymmetric` | packages/history-convert/src/representation.ts:41-50 | whether two copies conflict does not depend on which is called the original; same payload means equal |
| `Representation.FidelityExchanges` | packages/history-convert/src/representation.ts:41-50 | with an idempotent redactor, exchanging the two copies exchanges the redacted and unredacted verdicts |
| `Representation.FirstLongest` | packages/history-convert/src/representation.ts:74-76 | the index found is of a log at least as long as any other, and is the first such |
| `Representation.FindTarget` | packages/history-convert/src/representation.ts:74-79 | the chosen log is the reviewed one, else the first longest, and there is none exactly when that log is missing or too short |
| `Representation.ExamineAll` | packages/history-convert/src/representation.ts:80-114 | the loop refuses exactly when some log diverges from the chosen one, and otherwise gives every log's evidence and whether any payload differed |
| `Representation.SelectLegacyRepresentation` | packages/history-convert/src/representation.ts:52-130 | the answer is the one selection the policy allows, or a conflict exactly when there is none |
| `Representation.RepresentationForgetsOrder` | packages/history-convert/src/representation.ts:52-130 | the answer does not depend on the order in which the logs were supplied |
| `Representation.EverySourceRepresented` | packages/history-convert/src/representation.ts:74-114 | every event of every log is stood for, at its own position, by the chosen log, which is one of the logs supplied |
| `Representation.UnreviewedExactlyPrefixes` | packages/history-convert/src/representation.ts:74-116 | without a reviewed choice, logs are accepted exactly when they have one kind and all are literal prefixes of one of them |
| `Representation.ReviewedExactlyListed` | packages/history-convert/src/representation.ts:64-79 | with a reviewed choice, logs are accepted exactly when it lists each of them with its hash and nothing else, and the log it names agrees with all others and is no shorter |
| `RepresentationOutcomes.SelectionTells` | packages/history-convert/src/representation.ts:74-130 | the log kept is the named one, or else the first by identity of the longest; for every log the evidence tells its hash, how many events it has, whether it stops earlier, how many payloads differ, and the side that is redacted: the kept one at every difference, the other at every one, or each somewhere |
| `ReplayOrder.ReadyHeap.Add` | packages/history-convert/src/usage-selection.ts:207-217 | the array stays a heap and holds one key more |
| `ReplayOrder.ReadyHeap.RaiseLast` | packages/history-convert/src/usage-selection.ts:209-216 | sifting up restores the heap and only permutes the keys |
| `ReplayOrder.ReadyHeap.SinkTail` | packages/history-convert/src/usage-selection.ts:221-231 | sifting the popped tail down from the root restores the heap and only permutes the keys |
| `ReplayOrder.ReadyHeap.Take` | packages/history-convert/src/usage-selection.ts:218-233 | the least key is removed, and nothing else; the array stays a heap |
| `ReplayOrder.RootIsLeast` | packages/history-convert/src/usage-selection.ts:218-233 | in a heap no key is less than the root |
| `ReplayOrder.EmitEffect` | packages/history-convert/src/usage-selection.ts:236-244 | emitting a ready key lowers its targets' counts by one, and exactly those that reach zero become ready |
| `ReplayOrder.ReleaseTargets` | packages/history-convert/src/usage-selection.ts:239-243 | after the inner loop the counts are those without the emitted key and the heap holds exactly the ready keys |
| `ReplayOrder.SeedHeap` | packages/history-convert/src/usage-selection.ts:234 | the heap starts with exactly the keys that have no predecessor |
| `ReplayOrder.KahnOrder` | packages/history-convert/src/usage-selection.ts:206-244 | the loop emits a greedy run: each time the least key whose predecessors are all out, stopping only when there is none |
| `PrecedenceOrder.GreedyRunExists` | packages/history-convert/src/usage-selection.ts:235-244 | every greedy run can be carried on to one with nothing ready |
| `PrecedenceOrder.ExhaustedUnique` | packages/history-convert/src/usage-selection.ts:235-244 | a finished greedy run is determined by the graph alone |
| `PrecedenceOrder.FullExactlyWhenAcyclic` | packages/history-convert/src/usage-selection.ts:245-246 | a finished greedy run reaches every key exactly when the graph is acyclic, and is then a topological order |
| `PrecedenceOrder.GreedyIsLexLeast` | packages/history-convert/src/usage-selection.ts:206-246 | no topological order comes lexicographically before the greedy one |
| `PrecedenceOrder.StuckIsCyclic` | packages/history-convert/src/usage-selection.ts:245-246 | if keys are left and none is ready, the graph has a cycle |
| `PrecedenceOrder.TopologicalIsAcyclic` | packages/history-convert/src/usage-selection.ts:245-246 | a graph with a topological order has no cycle |
| `UsagePicking.GroupEvents` | packages/history-convert/src/usage-selection.ts:82-88 | a ledger's events are grouped by key, each group in ledger order |
| `UsagePicking.GroupByKey` | packages/history-convert/src/usage-selection.ts:77-94 | every key of every ledger is there with one copy per ledger that holds it, in ledger order |
| `UsagePicking.AllFidelity` | packages/history-convert/src/usage-selection.ts:125-147 | a key's copies are accepted exactly when each fits the chosen one, and every copy then has its fidelity counts |
| `UsagePicking.PickRecord` | packages/history-convert/src/usage-selection.ts:104-161 | a key's pick is one the policy allows, and there is none exactly when no copy is acceptable |
| `UsagePicking.PickAll` | packages/history-convert/src/usage-selection.ts:95-162 | all keys have picks, or a conflict is raised exactly when some key can have none, in whatever order the keys are visited |
| `UsageEdges.LastOccurrences` | packages/history-convert/src/usage-selection.ts:191-193 | sorting keys by last position gives the ledger's keys in last-occurrence order |
| `UsageEdges.AddEdge` | packages/history-convert/src/usage-selection.ts:199-202 | one edge is added once, and the in-degrees still count predecessors |
| `UsageEdges.AddPhase` | packages/history-convert/src/usage-selection.ts:194-204 | exactly the neighbouring pairs of one type's sequence become edges |
| `UsageEdges.BuildGraph` | packages/history-convert/src/usage-selection.ts:178-205 | the graph is the precedence graph of the ledgers not superseded, with its in-degrees (`UsageContinuation.EdgeExactlyWhen` says what that means) |
| `UsageSelection.CheckTerminals` | packages/history-convert/src/usage-selection.ts:165-177 | the check passes exactly when terminal event identities and terminal snapshot identities are all distinct |
| `UsageSelection.AllOccurrences` | packages/history-convert/src/usage-selection.ts:264-283 | every event of every ledger is listed in order, with the index of its key's record and its disposition |
| `UsageSelection.RecordKeysCover` | packages/history-convert/src/usage-selection.ts:247-253 | snapshots then links list every picked key exactly once |
| `UsageSelection.PickOrigin` | packages/history-convert/src/usage-selection.ts:148-161 | a key's record is the last event with that key in the ledger it is picked from |
| `UsageSelection.Order` | packages/history-convert/src/usage-selection.ts:163-177 | from the picks on, a merge is returned exactly when one exists |
| `UsageSelection.Replay` | packages/history-convert/src/usage-selection.ts:178-289 | once the identities are found unique: precedence, replay order and assembly give a merge exactly when one exists |
| `UsageSelection.SelectLegacyUsage` | packages/history-convert/src/usage-selection.ts:64-289 | the whole merge succeeds exactly when some merge of the ledgers exists, and returns that one |
| `UsageTheorems.SelectedExactlyWhen` | packages/history-convert/src/usage-selection.ts:64-246 | the merge succeeds exactly when the identities are valid and the ledgers can be merged |
| `UsageTheorems.MergeForgetsOrder` | packages/history-convert/src/usage-selection.ts:68-102 | neither the order of the ledgers nor any map's insertion order shows in the outcome |
| `UsageTheorems.ReplayOrderIsLeast` | packages/history-convert/src/usage-selection.ts:206-246 | the replay order covers every retained key, respects every edge, and is the lexicographically least order that does |
| `UsageTheorems.RecordsFollowOrder` | packages/history-convert/src/usage-selection.ts:247-263 | the records list every retained key exactly once, each with its own pick |
| `UsageTheorems.EveryLedgerInItsOrder` | packages/history-convert/src/usage-selection.ts:180-205 | for every ledger not superseded and each type, its keys in last-occurrence order are a subsequence of the records |
| `UsageTheorems.EveryKeyOrdered` | packages/history-convert/src/usage-selection.ts:181-190 | every key occurs in some ledger that is not superseded, so that dropping superseded ones loses none |
| `UsageTheorems.NoRepairOmitted` | packages/history-convert/src/usage-selection.ts:117-161 | a key's record ends a copy that covers every ledger's copy of that key: event by event it is the same, or, if reviewed, one is the redaction of the other |
| `UsageAccount.MergeIsSettled` | packages/history-convert/src/usage-selection.ts:163-289 | every merge the policy allows meets the accounting facts below |
| `UsageAccount.EveryEventAccounted` | packages/history-convert/src/usage-selection.ts:265-283 | each event of each ledger appears, at its place, under its key's record |
| `UsageAccount.OriginalExists` | packages/history-convert/src/usage-selection.ts:277-280 | every record has an occurrence marked as its original |
| `UsageAccount.OriginalUnique` | packages/history-convert/src/usage-selection.ts:277-280 | and only one |
| `UsageAccount.AccountBalances` | packages/history-convert/src/usage-selection.ts:284-289 | originals number the records, snapshots and links add up to them, and all other occurrences are retained evidence |
| `UsageAccount.SingleLedgerProjected` | packages/history-convert/src/usage-selection.ts:64-263 | a single ledger becomes its last event per key, snapshots then links, each in last-occurrence order |
| `UsageReplay.RecordsAreLeast` | packages/history-convert/src/usage-selection.ts:180-256 | of all rearrangements of the records, snapshots among snapshots and links among links, that keep the own order of every ledger not superseded, none comes before the records lexicographically |
| `UsageOutcomes.SelectedUsage` | packages/history-convert/src/usage-selection.ts:64-289 | told from the result and the input alone: one record for every key, naming the last event of that key in a ledger that has all of it, a snapshot exactly for the first `selectedSnapshots` records; one original occurrence for each record, that of the event it names, and no other; the own order of every ledger not superseded, within snapshots and within links, and the least such arrangement; every event listed under the record of its key; a balanced account |
| `UsageChoices.KeyPickedExactlyWhen` | packages/history-convert/src/usage-selection.ts:104-147 | a key has a record if and only if it has at most one reviewed choice and some ledger may stand for it: without a choice, one that all others literally start; with one, the ledger it names, if the choice lists exactly the ledgers that have the key, with their hashes, and each agrees with it as far as redaction goes |
| `UsageChoices.RecordsTell` | packages/history-convert/src/usage-selection.ts:104-164 | told of every record of a merge: whether it was chosen, and then the choice as above, or that it is from the first of the ledgers that have most of its key; and for every ledger with the key its hash, its events, and at how many of them the kept or the other side is the redaction; every choice is for a key that is there |
| `UsageContinuation.EdgeExactlyWhen` | packages/history-convert/src/usage-selection.ts:180-205 | one key must come after another exactly when some ledger has it directly after the other, within their type, and every longer ledger conflicts with that ledger at some place |
| `UsageContinuation.ContinuedLedgerChangesNothing` | packages/history-convert/src/usage-selection.ts:180-190 | supplying one ledger more, which starts as a ledger already there and stops earlier, leaves a merge without reviewed choices successful, with the same records in the same order |
| `UsageContinuation.SingleLedgerSelects` | packages/history-convert/src/usage-selection.ts:165-177 | a ledger alone is selected exactly when the last events of its keys differ in identity, and the snapshots among them in theirs |
| `UsageContinuation.LinksInOrder` | packages/history-convert/src/usage-selection.ts:191-204 | a selected ledger of links alone is replayed in the order of their last occurrences |
| `UsageContinuation.RepairedArchiveIsSelected` | packages/history-convert/src/usage-selection.test.ts:70-76 | an input: a ledger, and an archive that repairs its first link twice, are merged, the repaired link last |
| `SubprocessRunner.BoundedRun.SettleWith` | packages/evaluator-protocol/src/subprocess.ts:317-340 | the first call resolves with what is known and clears every timer; later calls change nothing |
| `SubprocessRunner.BoundedRun.PollGroup` | packages/evaluator-protocol/src/subprocess.ts:363-398 | one poll: settle on an empty group, try SIGKILL once due, settle unconfirmed at the hard deadline, else poll again |
| `SubprocessRunner.BoundedRun.Await` | packages/evaluator-protocol/src/subprocess.ts:354-400 | the bounded wait is entered once, from either side |
| `SubprocessRunner.BoundedRun.FinalizeWith` | packages/evaluator-protocol/src/subprocess.ts:410-419 | the exit is noted; it settles the run at once, as what is reported, unless a kill is in flight |
| `SubprocessRunner.BoundedRun.EscalateFor` | packages/evaluator-protocol/src/subprocess.ts:426-441 | SIGTERM is sent, and only the first request sets the reason, the deadline and the timer |
| `SubprocessRunner.BoundedRun.Request` | packages/evaluator-protocol/src/subprocess.ts:443-449 | a request before the spawn is held, and only the first one |
| `SubprocessRunner.BoundedRun.Handle` | packages/evaluator-protocol/src/subprocess.ts:317-503 | every handler of the object, run on any event, is one step of the state machine |
| `SubprocessRunner.BoundedRun.HandleAll` | packages/evaluator-protocol/src/subprocess.ts:317-503 | driven through any run of events, the object ends in the state that the run of the state machine ends in |
| `SubprocessLifecycle.StepIsSafe` | packages/evaluator-protocol/src/subprocess.ts:317-503 | every step keeps the safety invariant |
| `SubprocessLifecycle.RunIsSafe` | packages/evaluator-protocol/src/subprocess.ts:317-503 | in every run: at most one resolution; `hard_killed` exactly if a SIGKILL was delivered; a killed run is confirmed exactly if its group was seen empty; no signal without a kill in flight; no SIGKILL before the deadline |
| `SubprocessLifecycle.RunKeeps` | packages/evaluator-protocol/src/subprocess.ts:426-441 | in every run the first reason and deadline are never replaced, and nothing is sent or resolved after settlement |
| `SubprocessLifecycle.NeverSignalledUnlessRequested` | packages/evaluator-protocol/src/subprocess.ts:410-503 | a child that settles before any kill is requested is never signalled, then or later |
| `SubprocessLifecycle.KilledExactlyWhenRequested` | packages/evaluator-protocol/src/subprocess.ts:443-503 | a spawned, unsettled child is being killed exactly if someone asked |
| `SubprocessLifecycle.ReasonReportedExactlyWhenRequested` | packages/evaluator-protocol/src/subprocess.ts:117-122 | a spawned child's result names a reason exactly when a kill was requested before it settled, even after the child exited by itself |
| `SubprocessLifecycle.ExitedButReportedAsTimedOut` | packages/evaluator-protocol/src/subprocess.ts:494-503 | a run in which the leader exits by itself with code 0 and is still signalled and reported as timed out |
| `SubprocessLifecycle.StepIsOnTime` | packages/evaluator-protocol/src/subprocess.ts:354-503 | every step with exact timers keeps the timing invariant |
| `SubprocessLifecycle.KillSettlesInTime` | packages/evaluator-protocol/src/subprocess.ts:354-441 | once a kill is in flight, no SIGKILL is tried before the deadline and the run has settled by the bound, however signals fail |
| `SubprocessLifecycle.AlwaysAnswers` | packages/evaluator-protocol/src/subprocess.ts:354-503 | a spawned run has settled by the timeout (or a later spawn) plus grace plus the bound |
| `SubprocessLifecycle.ExitAnsweredWithinGrace` | packages/evaluator-protocol/src/subprocess.ts:498-503 | from the exit of the leader on, whenever it comes in an exact run: past exit + 200 ms the run has settled or a kill is in flight, at that very moment the drain timer is due and settles it, and an unkilled run was reported no later than that |
| `SubprocessLifecycle.SettlesUnaided` | packages/evaluator-protocol/src/subprocess.ts:342-400 | with no exit, no close, no delivered signal and no drained group, timers alone settle a kill in flight |
| `SubprocessReports.ReportTellsTheRun` | packages/evaluator-protocol/src/subprocess.ts:317-503 | in every run, the one result tells the exit last noted by a close, or by the first exit once its streams had time, or none; the reason of the first request made; the moment it settled; and every request of a spawned child sent one SIGTERM |
| `SubprocessReports.OwnExitIsReported` | packages/evaluator-protocol/src/subprocess.ts:402-419 | without a request, a run settled by a close reports that exit, and one settled by the drain timer the first exit of the leader |
| `SubprocessReports.FirstRequestAt` | packages/evaluator-protocol/src/subprocess.ts:421-449 | the first request in a run is an abort, an overflow or a timeout with none of them before it |
| `SubprocessReports.GivesUpOnlyAfterKilling` | packages/evaluator-protocol/src/subprocess.ts:364-398 | a killed run whose group was never seen empty gives up only after a SIGKILL that landed 500 ms before, or failed at that moment, 500 ms past the deadline; none is sent after one that landed |
| `SubprocessReports.EveryPollTries` | packages/evaluator-protocol/src/subprocess.ts:370-384 | from the deadline on, every poll that finds the group alive tries a SIGKILL, until one has landed |
| `OutputCollector.BoundedUtf8Collector.Push` | packages/evaluator-protocol/src/subprocess.ts:163-174 | a chunk is kept up to the cap, and the call that crosses the cap says so |
| `OutputCollector.BoundedUtf8Collector.Bytes` | packages/evaluator-protocol/src/subprocess.ts:175-179 | the bytes to decode are all that was kept, trimmed only if the cap cut them |
| `OutputCollector.EveryChunking` | packages/evaluator-protocol/src/subprocess.ts:155-181 | however a stream is cut into chunks, exactly its first bytes up to the cap are kept, and overflow is signalled once if it is longer, else never |
| `OutputCollector.CollectStream` | packages/evaluator-protocol/src/subprocess.ts:155-181 | pushing all chunks of a stream, however it is cut, decodes the stream if it fits and else its trimmed first bytes, and signals overflow once if it is longer, else never |
| `OutputCollector.TrimSplitUtf8Tail` | packages/evaluator-protocol/src/subprocess.ts:184-198 | the loop computes the trim it is specified by |
| `OutputCollector.TrimKeepsWholeCharacters` | packages/evaluator-protocol/src/subprocess.ts:184-198 | trimming any prefix of well-formed UTF-8 keeps its longest run of whole code points and drops at most three bytes |
| `OutputCollector.WholeCharactersDecoded` | packages/evaluator-protocol/src/subprocess.ts:155-198 | what is decoded of well-formed UTF-8 is its longest run of whole code points within the cap, all of it if it fits, and at most three bytes short of the cap if not |
| `WalChecksum.ComputeChecksum` | packages/history-convert/src/sqlite.ts:14-32 | the offset loop computes the running checksum of whole 8-byte blocks |
| `WalChecksum.ChecksumComposes` | packages/history-convert/src/sqlite.ts:14-32 | summing two stretches one after the other is summing them joined |
| `WalChecksum.BlockMixerIsInjective` | packages/history-convert/src/sqlite.ts:21-30 | from one sum different blocks lead to different sums, and over one block different sums stay different, in either byte order |
| `WalChecksum.OneBlockDetected` | packages/history-convert/src/sqlite.ts:14-35 | two equally long inputs that differ in exactly one 8-byte block have different checksums |
| `WalReconstruction.LogIsSound` | packages/history-convert/src/sqlite.ts:71-94 | every frame read has a page number and a whole page of data |
| `WalReconstruction.ReadFrame` | packages/history-convert/src/sqlite.ts:71-88 | one turn of the loop takes the frame at the offset, or ends the log as specified |
| `WalReconstruction.ReadFrames` | packages/history-convert/src/sqlite.ts:67-94 | the loop reads the current generation, its last commit and the size that commit names |
| `WalImage.CopyInto` | packages/history-convert/src/sqlite.ts:100-103 | copying replaces exactly that stretch of the buffer |
| `WalImage.StartImage` | packages/history-convert/src/sqlite.ts:99-100 | the fresh buffer is the main file's pages as far as they fit, then zeros |
| `WalImage.WriteFrame` | packages/history-convert/src/sqlite.ts:102-105 | copying a frame over an image is assembling the image with that frame last |
| `WalImage.ApplyFrames` | packages/history-convert/src/sqlite.ts:101-105 | the buffer ends as every page's last write, and the set holds exactly the pages supplied |
| `WalImage.FindMissing` | packages/history-convert/src/sqlite.ts:106-107 | a page is missing exactly when some new page was never supplied |
| `WalImage.AssembledPage` | packages/history-convert/src/sqlite.ts:99-105 | page p of the image stands at its offset |
| `WalImage.Reconstruct` | packages/history-convert/src/sqlite.ts:52-110 | the whole reconstruction, with every refusal in the order the code checks |
| `WalTheorems.PageOrigin` | packages/history-convert/src/sqlite.ts:102-105 | a page is the last committed write to it, else what the main file holds |
| `WalTheorems.RebuiltImage` | packages/history-convert/src/sqlite.ts:95-110 | an accepted image keeps the page size, has exactly the pages the last commit names, or the main file's if none is committed, and is at most the main file and committed frames long; it holds each page's last committed write or the main file's page, and a page past the main file is always a committed one |
| `WalTheorems.UncommittedHasNoEffect` | packages/history-convert/src/sqlite.ts:73-103 | cutting an accepted log after its last committed frame rebuilds the same bytes |
| `WalTheorems.CommittedFramesDecide` | packages/history-convert/src/sqlite.ts:73-103 | two accepted logs that share their committed frames rebuild the same bytes |
| `WalTheorems.ChangedFrameIsRejected` | packages/history-convert/src/sqlite.ts:71-88 | changing one 8-byte block of a current frame is rejected if and only if the block is not the salt or the log would be rejected when cut before that frame; a changed salt ends the generation there |
| `WalTheorems.ChangedHeaderIsRejected` | packages/history-convert/src/sqlite.ts:56-66 | changing one 8-byte block of the log's header is always rejected, the magic number that gives the byte order included |
| `WalByteOrder.OneOrderOnly` | packages/history-convert/src/sqlite.ts:56-66 | a readable log header is not readable with another magic number in its first block, for any page size: no stored sum holds in both byte orders |
| `WalWriter.LogReadsBack` | packages/history-convert/src/sqlite.ts:52-110 | a log laid out by the format from any frames, in either byte order, is read as those frames and rebuilds what they rebuild |
| `WalAcceptance.PageSizeExactlyWhen` | packages/history-convert/src/sqlite.ts:36-44 | a page size is read exactly when the header names it, it is one of the eight from 512 to 65536, and the file is whole pages of it |
| `WalAcceptance.LogAcceptedExactlyWhen` | packages/history-convert/src/sqlite.ts:52-110 | any log of writable frames with a commit is accepted if and only if, up to the last commit, every page past the main file is written, and the first page, if written, is last written with a valid header naming the same page size |
| `WalAcceptance.PagesTakeFrames` | packages/history-convert/src/sqlite.ts:97-98 | that there are no more new pages than committed frames follows from that by counting |
| `WalAcceptance.TornLogIsRejected` | packages/history-convert/src/sqlite.ts:56-79 | a log that stops inside its header or inside a current frame, at any byte past the first, is rejected |
| `WalAcceptance.GrownDatabaseIsRebuilt` | packages/history-convert/src/sqlite.ts:95-110 | an input: a one-page database whose log rewrites its page and commits a second one is rebuilt with two pages |
| `WalWriter.FirstSaltChanged` | packages/history-convert/src/sqlite.ts:73-78 | with another salt in its first frame any log is accepted, and nothing of it is kept |
| `WalWriter.ChangedSaltIsAccepted` | packages/history-convert/src/sqlite.ts:73-96 | an input for it: a one-page database whose log commits a change, accepted with the change gone once the salt of the frame is changed |
| `WalIndex.VerifyWalIndex` | packages/history-convert/src/sqlite.ts:112-130 | the checks on the shared-memory file, in the order the code makes them |
| `WalIndex.VerifyCommit` | packages/history-convert/src/sqlite.ts:131-143 | the checks on the last committed frame, at the offset the code computes |
| `WalIndex.RecoverImage` | packages/history-convert/src/sqlite.ts:225-226 | the image is rebuilt and then corroborated, or refused |
| `WalIndex.WithoutIndexEveryChangeIsRejected` | packages/history-convert/src/sqlite.ts:112-117 | without a shared-memory file every change to one block of a current frame is refused, the salt included |
| `WalIndex.IndexedChangeIsRejected` | packages/history-convert/src/sqlite.ts:112-144 | with the shared-memory file that accepted the log, the change is refused if and only if it is not to the salt or the frame is a committed one; otherwise the same database is recovered |
| `WalIndex.ChangedIndexIsRejected` | packages/history-convert/src/sqlite.ts:118-144 | a change to one block of the shared-memory file is refused if and only if it is in one of the two headers; elsewhere it changes nothing |
| `WalIndex.ChangedCopiesAreRejected` | packages/history-convert/src/sqlite.ts:118-127 | a change to one block of the first copy of the header is refused whatever the second copy says, the same change included, and whichever block it is, the version that gives the byte order included |
| `WalByteOrder.OneIndexOrderOnly` | packages/history-convert/src/sqlite.ts:120-127 | a shared-memory header whose sum is right in one byte order is not right with its first block turned to the other |
| `WalIndexWriter.IndexReadsBack` | packages/history-convert/src/sqlite.ts:118-144 | a shared-memory header laid out by the format, in either byte order, reads back as what was written, with its sum right |
| `WalIndexWriter.EveryImageHasAnIndex` | packages/history-convert/src/sqlite.ts:112-144 | for every image that a log rebuilds, some shared-memory file of either byte order corroborates it, as far as 32 bits count the frames |
| `WalIndexWriter.IndexAcceptedExactlyWhen` | packages/history-convert/src/sqlite.ts:112-144 | a shared-memory file with sound headers is accepted if and only if it names the number of committed frames and, if there are any, the pages and page size of the image, the byte order and salt of the log, and the sum stored with the last committed frame |
| `WalIndexWriter.CommitIsRecovered` | packages/history-convert/src/sqlite.ts:112-144 | an input: a one-page database whose log commits a change to its page, and a shared-memory file with which the change is recovered |
| `FindingsFences.IndentColumns` | packages/evaluator-protocol/src/findings-block.ts:49-58 | the loop counts blank columns, a tab as four, up to the limit |
| `FindingsFences.ReadLineOutside` | packages/evaluator-protocol/src/findings-block.ts:116-150 | a line outside any fence keeps the loop on the recursive reading |
| `FindingsFences.ReadLineInside` | packages/evaluator-protocol/src/findings-block.ts:89-114 | so does a line inside one, or it gives that reading's answer early |
| `FindingsFences.ParseFindingsBlock` | packages/evaluator-protocol/src/findings-block.ts:79-158 | the one-pass loop gives what the recursive account of top-level fences gives |
| `FindingsFences.TopLevelIsFaithful` | packages/evaluator-protocol/src/findings-block.ts:60-78 | each region opens at a line that opens it and closes at the first line that closes it, and no opening is left out |
| `FindingsFences.AcceptedExactlyWhen` | packages/evaluator-protocol/src/findings-block.ts:79-158 | content is accepted exactly when one findings block was opened, it was closed, it fits and no line was refused; it is the lines between the fences |
| `FindingsFences.AbsentExactlyWhen` | packages/evaluator-protocol/src/findings-block.ts:153-157 | absent means that no findings fence was opened and none was refused |
| `FindingsFences.CutInsideBlockIsUnreadable` | packages/evaluator-protocol/src/findings-block.ts:75-78 | a response that stops inside a findings block is unreadable, whatever follows without closing it |
| `FindingsFences.CutResponseIsUnreadable` | packages/evaluator-protocol/src/findings-block.ts:75-86 | a response cut at any line end inside a findings block is unreadable, never absent |
| `FindingsFences.CutResponse` | packages/evaluator-protocol/src/findings-block.ts:75-150 | a response cut anywhere past the opening line of a findings block and not past its closing line is never absent; it is accepted, with the lines so far as content, if and only if what is left of the last line closes the block, those lines fit, and no findings block came before; otherwise it is unreadable |
| `FindingsFences.CutReadsAsWhole` | packages/evaluator-protocol/src/findings-block.ts:75-114 | an input for the first case: a response cut inside its block that reads as a block with less content |
| `FindingsFences.NoBreakSpaceIsTrimmed` | packages/evaluator-protocol/src/findings-block.ts:40-58 | three backticks after a no-break space open a fence outside one and close one of three |
| `FindingsFences.AcceptedContentFits` | packages/evaluator-protocol/src/findings-block.ts:102-165 | accepted content fits the bound, so that the later check on the joined content never refuses |
| `FenceRules.RunCloses` | packages/evaluator-protocol/src/findings-block.ts:42-58 | a run of marks closes a fence exactly when it is indented by at most three columns, of the same character, at least as long, and bare |
| `FenceRules.RunEndsRegion` | packages/evaluator-protocol/src/findings-block.ts:89-114 | the first such run ends an open fence, and any other, a shorter one above all, is content |
| `FenceRules.FindingsFence` | packages/evaluator-protocol/src/findings-block.ts:116-148 | any run of three or more backticks with the info string alone opens a findings block, one of tildes is refused, and neither counts when indented too far |
| `FenceRules.FindingsAndMore` | packages/evaluator-protocol/src/findings-block.ts:135-147 | with another word after the info string the line is refused, not passed over |
| `FenceRules.FindingsAndBacktick` | packages/evaluator-protocol/src/findings-block.ts:122-133 | so is one with a backtick after the info string |
| `FenceRules.OtherFence` | packages/evaluator-protocol/src/findings-block.ts:135-149 | a fence with another word, or none, opens a block that is not the findings |
| `FenceRules.BlockFits` | packages/evaluator-protocol/src/findings-block.ts:99-108 | a closed findings block fits exactly when it has no lines or its content is shorter than the bound |
| `FenceRules.AnyEndings` | packages/evaluator-protocol/src/findings-block.ts:83-85 | a response is read as its lines however each ends, by a newline, a return or both; a return before an empty line that ends by a newline is the one pair that reads otherwise |
| `JsonKeys.EndOfJsonString` | packages/evaluator-protocol/src/findings-block.ts:268-280 | the loop finds the end of the string token |
| `JsonKeys.HasDuplicateJsonKeys` | packages/evaluator-protocol/src/findings-block.ts:221-265 | the flat scanner with its mutable stack computes the recursive scan |
| `JsonKeys.ScanValue` | packages/evaluator-protocol/src/findings-block.ts:221-265 | scanning a rendered value followed by anything reports exactly whether the value, or then the rest, repeats a key |
| `JsonKeys.RepeatsGivenMeans` | packages/evaluator-protocol/src/findings-block.ts:214-220 | what the tree predicate means: two members of one object with equal decoded names, at any depth |
| `JsonKeys.ScanAgreesWithTree` | packages/evaluator-protocol/src/findings-block.ts:214-265 | on any well-formed document the scanner answers true exactly when some object in the tree has two equal decoded names |
| `GlobTraversal.Search.Enter` | packages/evaluator-protocol/src/glob.ts:168-207 | the memoised visit answers what the plain recursion answers; it remembers the state it enters, expands exactly the states it newly remembers, once each, and enters the search at most twice more for each |
| `GlobTraversal.Search.Classify` | packages/evaluator-protocol/src/glob.ts:168-210 | a whole search expands each state it meets once, and enters at most twice as often as there are states, and once more |
| `GlobTraversal.SeenBound` | packages/evaluator-protocol/src/glob.ts:174-176 | there are at most 4 * (selectors + 1) * (directory parts + 1) states |
| `GlobTraversal.CandidateRequiresTraversal` | packages/evaluator-protocol/src/glob.ts:162-210 | the classifier answers what the search without memory answers, for any matcher, with its expansions and its calls counted and bounded |
| `GlobPaths.FoundExactlyWhenSelected` | packages/evaluator-protocol/src/glob.ts:162-207 | the search says yes exactly when every part of the directory can be given to a selector, in order, several to a double star and only double stars left out, so that a specific selector is used, or one that is not broad is left, or after something wild a last segment is there that does not start with a star |
| `TerminalFormatting.CsiSpanEnd` | packages/evaluator-protocol/src/terminal.ts:118-135 | the scan ends a control sequence as specified, having looked at exactly the units up to where it stopped |
| `TerminalFormatting.StringSequenceSpanEnd` | packages/evaluator-protocol/src/terminal.ts:137-163 | the same for string sequences |
| `TerminalFormatting.TerminalFormattingSpanEnd` | packages/evaluator-protocol/src/terminal.ts:100-116 | a span is found as specified, and is empty exactly at a visible unit |
| `TerminalFormatting.StripTerminalFormatting` | packages/evaluator-protocol/src/terminal.ts:67-92 | the walk with its segment blocks gives exactly the visible units, and its scans look at exactly as many units as their disjoint stretches hold: no more than the text has |
| `TerminalFormatting.StrippedIsClean` | packages/evaluator-protocol/src/terminal.ts:62-92 | no control unit is left, and stripping again changes nothing |
| `TerminalFormatting.ScannedOnce` | packages/evaluator-protocol/src/terminal.ts:118-163 | after a scan the walk resumes where nothing sets off a scan of what was already looked at |
| `TerminalFormatting.ScansAreLinear` | packages/evaluator-protocol/src/terminal.ts:67-163 | the inner scans of the main walk look at disjoint stretches, together no more units than the text has |
| `TerminalSequences.SequencesAreRemoved` | packages/evaluator-protocol/src/terminal.ts:62-163 | of any text written out as visible units, single controls, control sequences and control strings, exactly the visible units are left, in order |
| `TerminalSequences.InterruptedIsRemoved` | packages/evaluator-protocol/src/terminal.ts:118-123 | a control sequence that escape or a control of the second set breaks off is removed up to there |
| `TerminalSequences.UnfinishedIsShown` | packages/evaluator-protocol/src/terminal.ts:118-135 | one that the text breaks off loses its escape alone |
| `TerminalSequences.UnfinishedStringIsShown` | packages/evaluator-protocol/src/terminal.ts:137-163 | and so does a control string |
| `DetectionNormalization.NormalizeText` | packages/evaluator-protocol/src/normalize.ts:76-125 | the one pass with its offset arrays gives the normalized text, its offsets, and ends one past them |
| `DetectionNormalization.NormalizeForDetection` | packages/evaluator-protocol/src/normalize.ts:66-126 | null is returned exactly when every unit is left as it is, and then normalization changes nothing |
| `DetectionNormalization.PickedFrom` | packages/evaluator-protocol/src/normalize.ts:66-126 | picking the kept offsets is stripping, then removing invisible units, then folding spaces |
| `DetectionNormalization.OffsetsAreFaithful` | packages/evaluator-protocol/src/normalize.ts:57-63 | offsets increase strictly, and each kept unit is the source unit at its offset or the space it was folded into |
| `RedactionRanges.MergeRedactionRanges` | packages/evaluator-protocol/src/secrets.ts:694-709 | the loop absorbs the sorted ranges one by one |
| `RedactionRanges.MergeIsExact` | packages/evaluator-protocol/src/secrets.ts:694-709 | merged ranges are in order and disjoint, cover exactly what was covered, and join two neighbouring units exactly when some range held both |
| `RedactionRanges.MergeHolds` | packages/evaluator-protocol/src/secrets.ts:641-651 | every range lies, names and all, within one merged range |
| `RedactionRanges.MergeInvents` | packages/evaluator-protocol/src/secrets.ts:641-651 | a merged range starts where some range starts and bears only names of ranges within it |
| `RedactionRanges.MaskFoundRanges` | packages/evaluator-protocol/src/secrets.ts:315-324 | the masked text is as long as the text, with U+0000 exactly at covered units |
| `RedactionRanges.RedactRanges` | packages/evaluator-protocol/src/secrets.ts:734-743 | the chunk loop renders the pieces between ranges with a marker for each range |
| `RedactionRanges.PiecesAreExact` | packages/evaluator-protocol/src/secrets.ts:734-743 | exactly the units in no range survive, and each range leaves one marker |
| `RedactionRanges.PiecesRange` | packages/evaluator-protocol/src/secrets.ts:734-743 | the units that survive do so in their order, each at most once |
| `RedactionRanges.RedactionShows` | packages/evaluator-protocol/src/secrets.ts:734-743 | redacting a range that does not start as the marker does changes the text |
| `SecretDetection.CollectRedactionRanges` | packages/evaluator-protocol/src/secrets.ts:653-692 | one pass collects what the key scan and the patterns find, merged |
| `SecretDetection.MapNormalizedRanges` | packages/evaluator-protocol/src/secrets.ts:718-732 | all ranges but the empty ones are carried back through the offset arrays, in order |
| `SecretDetection.MappedUsable` | packages/evaluator-protocol/src/secrets.ts:711-732 | a range carried back is not empty, is in bounds, and starts at the unit that was matched |
| `SecretDetection.RescanUsable` | packages/evaluator-protocol/src/secrets.ts:303-312 | a range found behind the mask still redacts visibly: it starts at a unit of its own or is merged into a range found before |
| `SecretDetection.FindSecretRanges` | packages/evaluator-protocol/src/secrets.ts:291-313 | the composed passes compute the specified ranges |
| `SecretDetection.SecretRangesAreExact` | packages/evaluator-protocol/src/secrets.ts:279-313 | secret ranges are in order, disjoint, in bounds and named, and cover and join exactly what the direct, normalized and rescan passes do |
| `SecretDetection.RedactBothPasses` | packages/evaluator-protocol/src/secrets.ts:326-329 | redaction replaces exactly those ranges |
| `SecretDetection.FindSecretLocations` | packages/evaluator-protocol/src/secrets.ts:402-424 | the locations are those ranges with their names and strongest tier, and there are none exactly when redaction changes nothing |
| `SecretDetection.RedactionTells` | packages/evaluator-protocol/src/secrets.ts:402-414 | something is found exactly when redaction changes the text |
| `SecretCoverage.NormalizedPassCovers` | packages/evaluator-protocol/src/secrets.ts:711-732 | in a text that is not plain, the normalized pass covers a unit if and only if it lies from the source of the first to that of the last unit of something matched in the normalized text |
| `SecretCoverage.BrokenUpIsRejoined` | packages/evaluator-protocol/src/normalize.ts:66-126 | of any text written out as units and terminal sequences, what is left for detection are the visible units that are not invisible in print, with odd spaces folded: a token broken up is whole again |
| `SecretCoverage.SecretUnits` | packages/evaluator-protocol/src/secrets.ts:291-313 | a unit is secret if and only if it is matched in the text, lies under a match in the normalized text, or is matched once all of those are U+0000 |
| `SecretCoverage.SecretsAreTakenOut` | packages/evaluator-protocol/src/secrets.ts:275-329 | redaction takes out exactly those units; every other is left, in order |
| `Lines.JoinOfSplit` | packages/evaluator-protocol/src/secrets.ts:499-553 | splitting a diff at newlines and joining it loses nothing |
| `Lines.SplitOfJoin` | packages/evaluator-protocol/src/secrets.ts:499-553 | joined lines split into those lines |
| `DiffRedaction.LayOutRows` | packages/evaluator-protocol/src/secrets.ts:502-523 | the loop tells structure from body row by row, inside and outside hunks, and lays the bodies out |
| `DiffRedaction.LayoutIsSound` | packages/evaluator-protocol/src/secrets.ts:500-525 | each body stands in the joined document at its row's offset |
| `DiffRedaction.LocalCovers` | packages/evaluator-protocol/src/secrets.ts:541-548 | a unit of a row lies in a clipped range exactly when it lies in a range of the document |
| `DiffRedaction.RedactAllRows` | packages/evaluator-protocol/src/secrets.ts:533-551 | the loop with its body index redacts every row by the ranges that fall on it |
| `DiffRedaction.RedactSecretsInUnifiedDiff` | packages/evaluator-protocol/src/secrets.ts:488-554 | the whole redaction of a diff or of hunk body rows |
| `DiffRedaction.DiffKeepsShape` | packages/evaluator-protocol/src/secrets.ts:470-486 | the number of lines, every structure line and every sign column stay; after the sign a row is its redacted body |
| `DiffRedaction.DiffHidesSecrets` | packages/evaluator-protocol/src/secrets.ts:533-554 | line by line, the redacted diff is the diff with no unit left that lies in a range detected in its bodies, even when the range spans rows; every other unit is left, in order |
| `DiffRows.BodyExactlyWhen` | packages/evaluator-protocol/src/secrets.ts:507-522 | a row that starts with a sign, with only rows of a hunk between it and an opening `@@` line or the start of given hunk rows, has a body unless its sign is a backslash; any other line has one exactly if it is neither empty nor a header |
| `DiffRows.HunkRowsAreScanned` | packages/evaluator-protocol/src/secrets.ts:507-554 | so every signed row of a hunk is scanned, one that looks like a header too, and no unit detected there is left |
| `EvaluatorDispatch.RequiredTrustCapabilities` | packages/evaluator-runner/src/trust-capability.ts:58-77 | the capabilities required are exactly those the engine, with its effective provider, has |
| `EvaluatorDispatch.EvaluateConsentGate` | packages/evaluator-runner/src/trust-capability.ts:110-149 | the gate opens exactly on a grant that covers the engine; without a decision, or with a refusal, it stays closed |
| `EvaluatorDispatch.GateExactlyWhen` | packages/evaluator-runner/src/dispatch.ts:192-230 | who is allowed, from the kind of engine, its command filter, its own provider, the default one and the decision on its package; and which provider, if any, the filter is asked about |
| `EvaluatorDispatch.Engines.DispatchOne` | packages/evaluator-runner/src/dispatch.ts:173-260 | a refusal is reported even where the filter would have skipped, and neither calls an engine; whoever is allowed and not skipped calls the engine of its kind, once |
| `WorkerPool.NextIsSound` | packages/evaluator-runner/src/dispatch.ts:105-121 | every stretch of every worker keeps the pool sound |
| `WorkerPool.StretchesSpent` | packages/evaluator-runner/src/dispatch.ts:107-121 | each stretch uses up one of a number fixed at the start |
| `WorkerPool.CompletionFills` | packages/evaluator-runner/src/dispatch.ts:103-126 | when every worker has stopped, every index was taken exactly once, in order, and slot i holds the run of evaluator i |
| `WorkerPool.EveryInterleaving` | packages/evaluator-runner/src/dispatch.ts:98-126 | every interleaving has max(1, min(limit, n)) workers and so many in flight at most, ends after exactly 2n plus that many stretches, and until then has an enabled stretch, whatever the engines return |
| `WorkerPool.CompletesFrom` | packages/evaluator-runner/src/dispatch.ts:98-121 | from every sound pool, whatever the engines return, some interleaving completes |
| `WorkerPool.EngineCallsAreExact` | packages/evaluator-runner/src/dispatch.ts:173-260 | at any point of any interleaving, whoever was taken, allowed and not skipped has called the engine of its kind, once, and nobody else has called any |
| `WorkerPool.EngineCalledOnlyWithConsent` | packages/evaluator-runner/src/dispatch.ts:192-260 | an engine is only called for a trusted pack whose grant covers its kind and, with a command filter, or Codex as its own provider or as the default where it names none, the reading of files |
| `WorkerPool.Dispatcher.TakeNext` | packages/evaluator-runner/src/dispatch.ts:106-110 | the next index is handed out, until there is none |
| `WorkerPool.Dispatcher.RunTake` | packages/evaluator-runner/src/dispatch.ts:112-117 | a worker's stretch up to its engine is a step of the pool, the engine calls included |
| `WorkerPool.Dispatcher.RunFinish` | packages/evaluator-runner/src/dispatch.ts:117 | the stretch after the engine fills the slot of the index taken |
| `WorkerPool.DispatchEvaluators` | packages/evaluator-runner/src/dispatch.ts:98-126 | the pool under an arbitrary scheduler returns, in order, the run of each evaluator, having called exactly the engines it should, in that order |

## Left out

- Reading and writing: discovery, previews, git and filesystem access, and opening the rebuilt SQLite image with a driver.
- Concrete patterns, glob matching, schema validation, SHA-256 and decoding of a JSON string: parameters of the models.
- The rollback-journal check before an image is rebuilt, and the two mode bytes set in it afterwards.
- The private-key scan (`privateKeyRanges` and its line heuristics): its thresholds have no specification to prove them against; its ranges enter as a finder.
- `cutTruncatedSecretTail` (packages/evaluator-protocol/src/secrets.ts:42): applied after the collector's trim, and driven by the concrete patterns.
- `stripTerminalControls`, the JSON writer of terminal.ts, and the validators and filters around the evaluators: easy members only.
- `expandFiniteAlternatives` and the matcher cache of glob.ts: the classifier is modelled on one candidate after expansion.
- What happens to accepted findings content after the repeated-key check: schema literals and field validation.
- Hashes, sidecars and the encoded event bytes in the result of the usage merge, and the manifest hash of a representation: values derived from what is modelled.
- Error messages of the converter: all its conflicts are one outcome, so that which of several conflicts is raised first is not modelled.
- Windows process handling, and the child's pipes: output enters as overflow events and as chunks.
- A dispatch that throws, the abort signal passed on to the engines, and the text of the run payloads: a run records which gate it stopped at, or what its engine returned.
- Idempotence of redaction: it depends on the concrete patterns.
- Offsets in the 32-bit arrays of normalize.ts: unbounded numbers here, as no text reaches 2^31 units.
