# Agent-memory verification

A Dafny model of the parts of the agent-memory service where order, crashes, concurrency or budgets
matter, with proofs. `dafny verify dfyconfig.toml` checks the whole project.

| files | what they model |
|---|---|
| `Wrappers`, `Sequences`, `StableSort`, `StringOrder` | notions that several components share |
| `Framing`, `WalMachine`, `WalSafety`, `WalLoss`, `WalDurability`, `WalRefusal`, `DrainSpec`, `FileWal`, `CodecWitness` | the write-ahead log of `agent.observe` |
| `FlusherHandshake` | StartFlusher, Stop and Close against the flusher goroutine |
| `Episodes`, `ObserveService` | the `agent.observe` handler and how it composes with the log |
| `CheckpointCache`, `CheckpointLru`, `CheckpointRequests` | the reranker sidecar's checkpoint cache and its collapsed loads |
| `GraphReader`, `Traversal`, `BoundedExpand`, `ExpandProperties`, `ExpandHandler` | `agent.expand` |
| `SeedExpander`, `SeedExpansion`, `Recall` | seed expansion and `agent.recall` |
| `Summarize` | destination hydration and citations of `agent.summarize` |
| `Signature` | the pre-image of an Episode's signature |
| `Migrator`, `MigratorProperties` | the schema migrator |

**The log.** `WalMachine` takes every disk effect as one event: write, fsync, the writer's transaction, offset
rename, truncate, offset reset. `Die` may fall between any two; the page cache survives it. The class
`FileWal.FileWAL` is the log as the program runs it. It carries a ghost trace that every method keeps a legal run of
the machine, so what is proved about runs holds at every point of the methods. Which system calls fail is left to
`Environment`, and what the writer answers to `EpisodeAppender`; both keep count, so that the methods can say
exactly which failures they report. The machine keeps three histories apart: rows whose whole record reached the
file, rows whose Enqueue succeeded, and rows the writer took. Rows are encoded by a codec of which only this is
assumed: no raw LF inside a record (control characters are escaped, section 7 of RFC 8259); decoding undoes
encoding, also behind white space; and an object behind anything else, or cut at its front, does not decode.
`CodecWitness` shows that some codec meets all of it. A record lands cleanly, on a line of its own, when the offset
is inside the file and at most white space of a torn record stands in front of it on its line (`CleanStep`).

**Where code and comments disagree.** The model follows the code.

- The crash-safety story at the head of `observe_wal.go` (lines 19-34) promises that a torn record is as if it
  never landed. A torn tail followed by an Enqueue makes one line of both, and Drain skips it:
  `TornWrite`, `TornTailLosesNext`. The offset also can lie beyond the file after a stop between truncation and
  offset reset, and the next record is then truncated without being delivered: `GapIsReachable`,
  `CompactionGapLosesNext`. `DurableExactly` is the exact condition under which every acknowledged row is pending
  or delivered, and `FifoExactly` the one under which the log is a FIFO queue.
- A replay that gets past a row does not always store the same row: an omitted `signal_json` is marshalled as
  `null` and reads back as the JSON text `null`. `QueuedRowSurvives` says exactly when a row survives, and when it
  is the same one.
- The depth gauge is meant to count the undrained records. It does throughout a run exactly when no whole record was
  swallowed or left its Enqueue through an error: `DepthExactly`, with `SwallowedOvercounts` for a gauge too high.
- A Drain that fails is said to be retried from the head (lines 447-450). The writer in `cmd/agent-api/main.go` inserts
  under the primary key (episode_id, created_at) and refuses a row that it holds. After a stop between its commit and
  the offset move, no retry gets past that row: `StuckExactly`, `StuckForever`, `StuckDrain`, `StuckIsReachable`. The
  other theorems about the log hold for both kinds of writer.
- A flusher pass can leave complete records behind, when a failed fsync has left the depth gauge too low:
  `FailedSyncLeavesOne`. `PassDrainsExactly` is the exact condition.
- `Truncated` of `agent.expand` can be true although nothing is missing. `TruncatedExactly` is the exact
  condition and `FilledBudgetRaisesFlag` a case of it.
- `/train` checks for a version and saves it in two steps. Two trains of one version can leave the cache with a
  model that is not on disk: `RacingTrainsGoStale`. `AgreesExactly` is the exact condition: no save replaces a
  different checkpoint that is among the four last used or on its way out of a load.
- `Down` reverts by `applied_at`, then by version. When a version that sorts earlier is applied at the same or an
  earlier time stamp, that is not the order of application: `EqualStampsBreakDown`. `AppendKeepsOrder` and
  `FoldSurvivesExactly` are exact.

## Model

| member | source | states |
|---|---|---|
| WalMachine.AppendChunk | services/agent-memory/internal/agentapi/observe_wal.go:411-414 | part of a record completes no line; a whole one completes exactly one line, which starts with whatever torn tail was there |
| WalMachine.AppendBeyond | services/agent-memory/internal/agentapi/observe_wal.go:411-414 | a record written in front of an offset beyond the file end is never read whole |
| WalSafety.FifoHolds | services/agent-memory/internal/agentapi/observe_wal.go:396-567 | over every run, with deaths, torn writes, and writer and disk failures anywhere, the rows past the offset are the last of the rows whose whole record reached the file, and the deliveries replay the others in order, as long as each whole record lands on a line of its own |
| WalSafety.FifoAfterDeath | services/agent-memory/internal/agentapi/observe_wal.go:19-34 | the same for a process killed after any number of the effects of such a run |
| WalSafety.CollapsedDeliveries | services/agent-memory/internal/agentapi/observe_wal.go:447-456 | deliveries with adjacent repeats collapsed, followed by the rows past the offset, are the rows whose record reached the file, in arrival order |
| WalSafety.OffsetAtBoundary | services/agent-memory/internal/agentapi/observe_wal.go:31-34 | the offset is 0 or just past an LF inside the file over every run that does not stop between truncation and offset reset, torn and glued records included |
| WalSafety.DrainRepairsGap | services/agent-memory/internal/agentapi/observe_wal.go:559-565 | after such a stop the offset is off every boundary, and a Drain before any Enqueue repairs it |
| WalSafety.DepthCounts | services/agent-memory/internal/agentapi/observe_wal.go:419-420 | between calls the depth never exceeds the complete records past the offset, and equals their number and what a restart recomputes while no whole record failed its fsync, in every run that writes no record wholly in front of an offset beyond the file |
| WalSafety.DepthExactly | services/agent-memory/internal/agentapi/observe_wal.go:419-420 | over every run the gauge is exact at every point, counting the row in flight, if and only if no whole record was swallowed by an offset beyond the file and none left its Enqueue without being counted |
| WalLoss.FifoExactly | services/agent-memory/internal/agentapi/observe_wal.go:396-567 | with fresh ids, and over every run, the log is a FIFO queue of the rows whose whole record reached the file if and only if each landed on a line of its own with the offset inside the file |
| WalLoss.UncleanRunLoses | services/agent-memory/internal/agentapi/observe_wal.go:505-523 | every run in which a whole record did not land cleanly has lost for good a row whose whole record had reached the file |
| WalLoss.TornWrite | services/agent-memory/internal/agentapi/observe_wal.go:411-414 | a process that dies half-way through a write leaves a torn tail of the kind behind which the next record is lost |
| WalLoss.TornTailLosesNext | services/agent-memory/internal/agentapi/observe_wal.go:489-523 | a record acknowledged behind a torn tail, whatever is pending in front of it, shares its line with it, does not decode and is lost |
| WalLoss.CompactionGapLosesNext | services/agent-memory/internal/agentapi/observe_wal.go:780-787 | a record of any length acknowledged after a stop between truncation and offset reset is lost: the next Drain steps over what sticks out behind the old offset and truncates it, delivering nothing |
| WalLoss.GapIsReachable | services/agent-memory/internal/agentapi/observe_wal.go:780-787 | one acknowledged and drained row is enough to get there |
| WalLoss.SwallowedOvercounts | services/agent-memory/internal/agentapi/observe_wal.go:780-787 | a record swallowed after a stop between truncation and offset reset makes the gauge read 1 with nothing to read |
| WalLoss.DeliveredAreStamped | services/agent-memory/internal/agentapi/observe_wal.go:525-538 | over every run, whatever is torn, glued, swallowed or handed over again, the writer is given written rows only, all marked degraded, with the reason they had or else episodic_log_unavailable, and nothing else about them changed |
| WalRefusal.StuckExactly | services/agent-memory/internal/agentapi/observe_wal.go:535-548 | with fresh ids and a writer that refuses ids it holds, over every run: the row at the head is stored already, so that no Drain can pass it, if and only if some Drain stopped between the writer's commit and the offset move |
| WalRefusal.StuckForever | services/agent-memory/internal/agentapi/observe_wal.go:545-548 | from there, over every extension of the run, offset and deliveries stay as they are and the pending lines only grow |
| WalRefusal.StuckDrain | services/agent-memory/internal/agentapi/observe_wal.go:539-543 | and every Drain takes no line and stores no row |
| WalRefusal.StuckIsReachable | services/agent-memory/migrations/0007_episode.sql:140 | one row, stored just before the process dies, is enough |
| WalDurability.DurableExactly | services/agent-memory/internal/agentapi/observe_wal.go:396-428 | with fresh ids, over every run: every row whose Enqueue succeeded is pending or delivered if and only if every acknowledged record landed on a line of its own with the offset inside the file |
| WalDurability.KeptForever | services/agent-memory/internal/agentapi/observe_wal.go:457-567 | a row that is pending or delivered stays so over every extension of the run, whatever fails or dies |
| WalDurability.UncleanAckLoses | services/agent-memory/internal/agentapi/observe_wal.go:505-523 | a row that was acknowledged without landing cleanly is lost for good |
| WalDurability.FateOfRecord | services/agent-memory/internal/agentapi/observe_wal.go:396-567 | the fate of one record over every extension of its run: pending or delivered exactly when it landed cleanly |
| WalDurability.SyncedIsAcknowledged | services/agent-memory/internal/agentapi/observe_wal.go:411-419 | in a run where every whole record got its fsync, the acknowledged rows are the written ones, so that the FIFO theorems speak of them |
| WalDurability.PassStopsEmpty | services/agent-memory/internal/agentapi/observe_wal.go:681-692 | whatever Enqueues run between its Drains, a pass with an exact gauge stops only with nothing left to read |
| WalDurability.FailedSyncLeavesOne | services/agent-memory/internal/agentapi/observe_wal.go:415-418 | one whole record whose fsync fails, then a batch of successful Enqueues: a pass in which nothing fails leaves a complete record behind |
| DrainSpec.PassDrainsExactly | services/agent-memory/internal/agentapi/observe_wal.go:677-693 | a flusher pass with nothing failing leaves no complete record exactly when the depth is above the last batch boundary, for any number of batches and corrupt lines |
| DrainSpec.ExactDepthDrains | services/agent-memory/internal/agentapi/observe_wal.go:677-693 | in particular whenever the depth is exact |
| DrainSpec.UndercountLeavesOne | services/agent-memory/internal/agentapi/observe_wal.go:689-691 | with 257 records and a gauge of 256 the pass ends after 256 |
| DrainSpec.FullBatch | services/agent-memory/internal/agentapi/observe_wal.go:484-523 | a Drain that leaves lines behind stored a full batch: corrupt lines do not count |
| DrainSpec.BatchBound | services/agent-memory/internal/agentapi/observe_wal.go:484-556 | and no Drain stores more rows than the batch |
| FileWal.FileWAL.Open | services/agent-memory/internal/agentapi/observe_wal.go:204-250 | opening what an earlier process left, wherever it died, gives a valid log whose depth is the number of complete records past the offset |
| FileWal.FileWAL.RecoverDepth | services/agent-memory/internal/agentapi/observe_wal.go:701-732 | counts the LF-terminated lines past the offset, a missing file and an offset beyond the end included |
| FileWal.FileWAL.Enqueue | services/agent-memory/internal/agentapi/observe_wal.go:396-428 | success exactly when no system call failed, and then the whole record is in the file, synced by one fsync and counted; failure leaves depth and offset alone, some prefix of the record in the file and no open handle |
| FileWal.FileWAL.WriteOffset | services/agent-memory/internal/agentapi/observe_wal.go:760-769 | the offset moves to the new position, or a system call failed and it does not move |
| FileWal.FileWAL.Compact | services/agent-memory/internal/agentapi/observe_wal.go:780-787 | changes neither what is pending nor the history, wherever it fails; without failures file and offset are empty |
| FileWal.FileWAL.Drain | services/agent-memory/internal/agentapi/observe_wal.go:457-567 | the writer gets the rows of the first lines past the offset, stamped and in order, never more than the batch, the offset goes past just those, at most one row is handed over twice; a clean return took one batch and was refused nothing, any other had a failure |
| FileWal.FileWAL.Scan | services/agent-memory/internal/agentapi/observe_wal.go:484-556 | the loop of Drain, which ends cleanly exactly when no system call failed and the writer refused nothing, and then because the lines or the batch ran out |
| FileWal.FileWAL.DeliverRow | services/agent-memory/internal/agentapi/observe_wal.go:535-555 | succeeds exactly when neither the writer nor the offset write failed; a writer failure leaves the row at the head; a failed offset write after a stored row leaves it there too |
| FileWal.FileWAL.SkipLine | services/agent-memory/internal/agentapi/observe_wal.go:505-523 | a corrupt line is stepped over, exactly when no system call failed, and nothing is delivered |
| FileWal.FileWAL.FlushPass | services/agent-memory/internal/agentapi/observe_wal.go:677-693 | a pass ends, drops lines only from the front, and with nothing failing stores exactly the rows of the lines that `PassEnd` names |
| CodecWitness.CodecExists | services/agent-memory/internal/agentapi/observe_wal.go:397-411 | the assumptions about the row encoding can all be met at once |
| FlusherHandshake.DoneClosedAtMostOnce | services/agent-memory/internal/agentapi/observe_wal.go:582-594 | in every interleaving of any number of StartFlusher, Stop and Close callers doneCh is closed at most once |
| FlusherHandshake.NoFlusherAfterCleanStop | services/agent-memory/internal/agentapi/observe_wal.go:612-638 | after a stopAndWait that returned true no flusher runs, then or ever after |
| FlusherHandshake.WaitersHaveAnOwner | services/agent-memory/internal/agentapi/observe_wal.go:630-637 | whoever waits on doneCh waits for a close that has happened, or is owed by a live goroutine whose stopCh is closed, or by a starter |
| FlusherHandshake.WaitCanEnd | services/agent-memory/internal/agentapi/observe_wal.go:582-594 | and at most four steps of the starter and the goroutine alone close doneCh, from every reachable state with a waiter, which can then return cleanly |
| FlusherHandshake.FlusherServes | services/agent-memory/internal/agentapi/observe_wal.go:582-594 | once some StartFlusher has returned the flusher flushes, until a stopper publishes stopped; it leaves its loop only after stopCh is closed |
| FlusherHandshake.NoDeadlock | services/agent-memory/internal/agentapi/observe_wal.go:582-638 | from every reachable state some caller can move, unless all have returned |
| ObserveService.ValidateObservationRef | services/agent-memory/internal/agentapi/observe.go:978-1017 | accepts exactly the refs with a caller role and that role's one non-blank target; the reserved role, an unknown role and a bad target are told apart exactly |
| ObserveService.ValidateObserveRequest | services/agent-memory/internal/agentapi/observe.go:928-967 | accepts exactly the admissible requests; human_corrected comes first; every error names a fault that the request has, a ref error the first bad ref |
| ObserveService.BlankIsTrimmedAway | services/agent-memory/internal/agentapi/observe.go:928-967 | the fields that are refused as missing are just those of which TrimSpace leaves nothing |
| ObserveService.BuildObservations | services/agent-memory/internal/agentapi/observe.go:704-736 | the caller's refs in order, then one server stamp exactly when the context was served degraded, all with fresh distinct ids |
| ObserveService.ObservationListMeans | services/agent-memory/internal/agentapi/observe.go:620-630 | only the last entry can have the role degraded_recall_context, and has it exactly when served degraded; every entry has exactly one non-blank target |
| ObserveService.ObserveService.Observe | services/agent-memory/internal/agentapi/observe.go:642-845 | an inadmissible request reaches nobody; the writer's answer decides where any other row goes: stored, or queued when the episodic log is unavailable, a log is wired and no system call fails, or nowhere with the error that says why; a success leaves one row whose every field matches request and response, and fails to be one exactly when its reason is outside the closed set |
| ObserveService.ObserveService.Fallback | services/agent-memory/internal/agentapi/observe.go:821-844 | the queued row carries episodic_log_unavailable, whatever the Consolidator said |
| ObserveService.DrainsKeepIdsFresh | services/agent-memory/internal/agentapi/observe_wal.go:457-567 | drains write no record, so ids stay fresh through every mix of Observe and Drain |
| ObserveService.QueuedExactly | services/agent-memory/internal/agentapi/observe_wal.go:396-428 | a successful Enqueue adds its row to what a replay will read exactly when the log was clean |
| ObserveService.QueuedRowSurvives | services/agent-memory/internal/agentapi/observe.go:819-844 | a row that Observe queued is, over every later mix of Observe calls, drains, failures and deaths, still to be read or stored, if and only if the log was clean when it was queued; it is the row of the response exactly when a signal was sent |
| ObserveService.ReplayStoresIt | services/agent-memory/internal/agentapi/observe_wal.go:535-556 | a Drain that gets past a queued row stores it in its place, marked degraded; it is that very row exactly when a signal was sent and the row was marked already |
| CheckpointCache.ModelStore.Lookup | services/agent-memory/cmd/reranker-sidecar/main.py:544-569 | one pass of the retry loop: a hit becomes the newest entry, a miss joins the load in flight or leads a new one; the same step as the machine's |
| CheckpointCache.ModelStore.Insert | services/agent-memory/cmd/reranker-sidecar/main.py:577-582 | stores the model as the newest entry and keeps the newest four |
| CheckpointCache.ModelStore.Clear | services/agent-memory/cmd/reranker-sidecar/main.py:583-591 | drops the pending entry of the key, after a load that worked and after one that raised; the same step as the machine's |
| CheckpointCache.OneLoadPerKey | services/agent-memory/cmd/reranker-sidecar/main.py:544-592 | for any number of threads and keys, at most one load per key is in flight |
| CheckpointCache.PendingWhileLoading | services/agent-memory/cmd/reranker-sidecar/main.py:551-591 | a pending entry exists exactly while its leader is loading |
| CheckpointCache.NoLostWakeup | services/agent-memory/cmd/reranker-sidecar/main.py:569-591 | every waiting thread's event is set or will be set by a live leader, also when loads raise |
| CheckpointLru.ByLastUseOrders | services/agent-memory/cmd/reranker-sidecar/main.py:548-550 | the reference order: each used key once, ordered by its last use |
| CheckpointLru.CacheIsLru | services/agent-memory/cmd/reranker-sidecar/main.py:577-582 | over every run the cache is exactly the four most recently used checkpoints, oldest use first |
| CheckpointLru.LoadAgreesWithDisk | services/agent-memory/cmd/reranker-sidecar/main.py:544-592 | interleaved with saves that write a version at most once, every answer and every cache entry is the model stored at its path |
| CheckpointLru.SaveKeepsAgreement | services/agent-memory/cmd/reranker-sidecar/main.py:788-830 | a save keeps that agreement exactly when it does not replace a different checkpoint of which somebody holds a copy: one of the four last used, or one that a thread has loaded and not yet returned |
| CheckpointLru.AgreesExactly | services/agent-memory/cmd/reranker-sidecar/main.py:788-830 | over every run: cache and answers agree with the disk throughout if and only if every save met that condition |
| CheckpointLru.RacingTrainsGoStale | services/agent-memory/cmd/reranker-sidecar/main.py:788-830 | two trains of one version that both pass the check make a request return a model that is no longer on disk |
| CheckpointRequests.AnswerMeans | services/agent-memory/cmd/reranker-sidecar/main.py:844-910 | every answer of every run: it is for the request the thread last took; not found exactly when there was no such checkpoint then; an error only if the thread's own load raised since; a model that was on disk under that version |
| CheckpointRequests.WokenIsServed | services/agent-memory/cmd/reranker-sidecar/main.py:544-569 | a waiter whose event is set and whose checkpoint is cached returns the cached model with its next two steps, and the entry becomes the newest |
| CheckpointRequests.AnswerInReach | services/agent-memory/cmd/reranker-sidecar/main.py:544-592 | from every reachable state, a request that has met no error comes to a model with at most thirteen steps of its own thread and of the leader it waits for |
| CheckpointRequests.FailureIsReported | services/agent-memory/cmd/reranker-sidecar/main.py:583-591 | a leader whose load raised frees its key, wakes those who wait, and raises |
| CheckpointRequests.StoredWasTrained | services/agent-memory/cmd/reranker-sidecar/main.py:783-829 | every checkpoint on disk was there at the start or was saved by a /train |
| CheckpointRequests.SaverFoundAbsent | services/agent-memory/cmd/reranker-sidecar/main.py:783-829 | and whoever is about to save was asked to train just that model and found none of that version |
| CheckpointRequests.TrainThenRank | services/agent-memory/cmd/reranker-sidecar/main.py:817-829 | a thread that trains a version and ranks with it returns what it saved, when nobody holds another model of that version |
| Traversal.KnownIsWithin | services/agent-memory/internal/agentapi/expand.go:752-922 | the breadth-first list to depth k holds exactly the nodes with a path of at most k hops |
| Traversal.LayerIsDistance | services/agent-memory/internal/agentapi/expand.go:752-922 | layer k is exactly the nodes at shortest distance k |
| BoundedExpand.AbsorbEdges | services/agent-memory/internal/agentapi/expand.go:830-899 | the edges of one anchor are recorded in order until the node cap; every new node was reached for the first time |
| BoundedExpand.ProbeBeyondDepth | services/agent-memory/internal/agentapi/expand.go:946-966 | the probe past the depth limit says whether a boundary node has an unseen first edge |
| BoundedExpand.ProbeIsExact | services/agent-memory/internal/agentapi/expand.go:946-966 | and its first edge is unseen whenever it has one |
| BoundedExpand.BfsExpand | services/agent-memory/internal/agentapi/expand.go:752-922 | the edges and nodes are prefixes of the unlimited walk of that depth, within the budgets, and the nodes, with their cards, are those the edges reach; either the walk is whole and the flag says whether the graph goes on, or a budget ended it and the flag is set |
| ExpandProperties.UntruncatedIsComplete | services/agent-memory/internal/agentapi/expand.go:738-751 | when the flag is false the nodes are everything reachable but the root, and the edges everything anchored there, whatever the depth |
| ExpandProperties.TruncatedExactly | services/agent-memory/internal/agentapi/expand.go:752-922 | the flag is set if and only if something is missing, or the nodes within the depth have just as many edges as the budget and the last of them none |
| ExpandProperties.FilledBudgetRaisesFlag | services/agent-memory/internal/agentapi/expand.go:781-830 | the exception happens: on a one-edge graph with an edge budget of one every walk is complete and flagged |
| ExpandProperties.HopIsDistance | services/agent-memory/internal/agentapi/expand.go:781-921 | each recorded hop is the anchor's shortest distance plus one, also in truncated walks |
| ExpandProperties.CappedIsPrefix | services/agent-memory/internal/agentapi/expand.go:781-921 | the lists of a capped walk are prefixes of those of an uncapped one of the same depth |
| ExpandHandler.ClampDepth | services/agent-memory/internal/agentapi/expand.go:562-575 | the depth is positive, at most 10 and at most the service's, no more than requested, and one of these three, the service's or 10 when 0 is requested |
| ExpandHandler.ClampBudget | services/agent-memory/internal/agentapi/expand.go:577-599 | the same for the node and edge budgets, without the ceiling |
| SeedExpander.HydrateCounts | services/agent-memory/internal/agentapi/expand.go:975-996 | one query for just the non-empty ids; each edge gets the count under its id, 0 when there is none or after an error; an outage is reported |
| SeedExpander.CountsAsked | services/agent-memory/internal/agentapi/graphreader_expander.go:408-431 | and that query names just these ids |
| ExpandHandler.Expand | services/agent-memory/internal/agentapi/expand.go:522-712 | a served answer is the walk that the clamped limits allow; for callees its edges are on the reader's callee lists and its nodes are their destinations, for callers on the caller lists and their sources; untruncated, the lists of the root and of all its nodes are there as a whole and none failed to be read; nodes carry their row's card, edges their count, hottest first, then nearest; every refusal has its exact cause |
| ExpandHandler.HotPathsAreCanonical | services/agent-memory/internal/agentapi/expand.go:1007-1018 | with distinct edge ids there is one hot-path order, whatever order the walk met the edges in |
| ExpandHandler.UntruncatedAnswerIsComplete | services/agent-memory/internal/agentapi/expand.go:696-702 | an answer that is not truncated names every reachable edge and node |
| SeedExpansion.DedupedMeans | services/agent-memory/internal/agentapi/graphreader_expander.go:439-453 | the distinct non-empty seeds |
| SeedExpansion.DedupedGrows | services/agent-memory/internal/agentapi/graphreader_expander.go:439-453 | in the order of their first occurrences |
| SeedExpansion.NotInFrontier | services/agent-memory/internal/agentapi/graphreader_expander.go:362-367 | a node that was not visited is not in the frontier, so the branch that lowers a hop cannot be taken |
| SeedExpansion.Expand | services/agent-memory/internal/agentapi/graphreader_expander.go:234-401 | the edges are the first fan-out edges of the walk from the seeds, two hops deep at most, with their counts; the frontier is the nodes with a row that these lead to, with their cards, in order of discovery; with budget left, the lists of the seeds and of the nearer frontier nodes are there as a whole; a failed call had a listing or a lookup fail in just that way, or a counter outage |
| SeedExpansion.ExpansionMeans | services/agent-memory/internal/agentapi/graphreader_expander.go:244-376 | at most fan-out edges with different ids; the frontier has no duplicates and no seed; each hop is the shortest distance from the seeds through resolving nodes |
| StableSort.SortIsStable | services/agent-memory/internal/agentapi/bert_sidecar_decoder.go:544-549 | elements that compare equal keep their order |
| StableSort.SortedIsUnique | services/agent-memory/internal/agentapi/expand.go:1007-1018 | when ties mean equality there is only one sorted arrangement |
| Recall.KeptMeans | services/agent-memory/internal/agentapi/recall.go:860-878 | a kept candidate has a published point id and comes from a hit of its kind |
| Recall.KeptInOrder | services/agent-memory/internal/agentapi/recall.go:865-878 | wherever an allowed hit stands in the results, its candidate stands between those of what is before and after it; a hit that is not allowed leaves none |
| Recall.SeedIdsMean | services/agent-memory/internal/agentapi/recall.go:1469-1487 | the expander is asked for the node ids of the candidates that are no concepts, each once |
| Recall.SeedIdsGrow | services/agent-memory/internal/agentapi/recall.go:1469-1487 | in the order of their first candidates |
| Recall.AppendFrontierCandidates | services/agent-memory/internal/agentapi/recall.go:1127-1228 | the seeds, followed by the promoted frontier nodes that are no seeds |
| Recall.PromotedMeans | services/agent-memory/internal/agentapi/recall.go:1169-1226 | every promoted candidate has no point id, sits at hop 1 or more and shadows no seed |
| Recall.PromotedShape | services/agent-memory/internal/agentapi/recall.go:1172-1226 | a promoted candidate carries its node's id, repository, kind (method when missing) and signature; its score is its own or the best seed score halved for each hop, hops counting from 1 |
| Recall.PromotedInOrder | services/agent-memory/internal/agentapi/recall.go:1159-1226 | promoted candidates come in the order of the frontier, one for each node that is no seed |
| Recall.LegacyFrontier | services/agent-memory/internal/agentapi/recall.go:1139-1151 | the legacy id list counts only without a typed frontier, and then each of its nodes is promoted at hop 1, as a method, with half of the best seed score |
| Recall.RankPermutes | services/agent-memory/internal/agentapi/reranker.go:173-183 | reranking only permutes the candidates, into descending score, ties in input order |
| Recall.ScoresCompare | services/agent-memory/internal/agentapi/reranker.go:185-192 | of two candidates the v0 score prefers the more similar, the nearer and the concept, each by its weight |
| Recall.SidecarScores | services/agent-memory/internal/agentapi/bert_sidecar_decoder.go:536-543 | a node is scored by its node id, a concept by its concept id, any other by its point id; a candidate the sidecar does not speak of keeps its score |
| Recall.Rank | services/agent-memory/internal/agentapi/bert_sidecar_decoder.go:532-549 | scores a copy in place, sidecar scores by graph id with the own score as fallback, and sorts it |
| Recall.Recall | services/agent-memory/internal/agentapi/recall.go:838-990 | hits, nodes and concepts are the projection of the first K served candidates, nodes and concepts number exactly min(K, candidates), every point among them is published, and the edges are the expander's; the call degrades exactly when the expander reports a graph outage |
| Recall.CandidatesAdmissible | services/agent-memory/internal/agentapi/recall.go:838-914 | a candidate with a point id passed the publish filter; one without is a frontier node at hop 1 or more that shadows no seed |
| Recall.RecallMeans | services/agent-memory/internal/agentapi/recall.go:838-970 | the whole answer: each hit shows an admissible candidate, field by field, with its score, none left out scores higher, nodes descend |
| Recall.PromotedAtDistance | services/agent-memory/internal/agentapi/recall.go:1169-1226 | with the graph expander's answer, a promoted candidate's distance is its shortest distance from the seeds, and no two promoted candidates stand for one node |
| Recall.HitsMatchNodes | services/agent-memory/internal/agentapi/recall.go:949-969 | the legacy hits and the nodes are the same candidates in the same order |
| Recall.ShownInOrder | services/agent-memory/internal/agentapi/recall.go:949-969 | served candidates are shown in their order, concepts among the concepts, all others among the nodes and, with their whole payload, the legacy hits, each field in its place |
| Summarize.HydrateDstNodes | services/agent-memory/cmd/agent-api/main.go:1871-1905 | hydrates the first max destinations in order; only a lookup error fails it |
| Summarize.CollectDsts | services/agent-memory/cmd/agent-api/main.go:1614-1663 | the distinct destinations other than the seed, in order of first use |
| Summarize.DeduplicatedTargets | services/agent-memory/internal/agentapi/summarize.go:1088-1117 | the targets that a shown edge leads to, once each, without the seed |
| Summarize.DeduplicatedMeans | services/agent-memory/internal/agentapi/summarize.go:1088-1117 | just the nodes of the targets that are wanted come out, each once |
| Summarize.ShownTargets | services/agent-memory/internal/agentapi/summarize.go:735-741 | the targets are the cards of the nodes with a row that the first 32 edges lead to, other than the seed, each once |
| Summarize.ShownEdges | services/agent-memory/internal/agentapi/summarize.go:735-738 | the edges are the first 32, each with the signature of the node it leads to |
| Summarize.EarlyCapKeepsTargets | services/agent-memory/cmd/agent-api/main.go:1871-1905 | for every edge list and cap, hydrating only the first destinations gives the same targets in the same order as hydrating all |
| Summarize.EarlyCapKeepsEdges | services/agent-memory/cmd/agent-api/main.go:1614-1663 | and the same destination signatures on the shown edges |
| Summarize.CitedNodesAreReached | services/agent-memory/internal/agentapi/summarize.go:1130-1151 | every cited node is the seed or the destination of a cited edge |
| Summarize.SummarizeNode | services/agent-memory/internal/agentapi/summarize.go:735-741 | with the early cap the edges, targets and citations are those of the uncapped hydration |
| Signature.ComputePreImage | services/agent-memory/internal/consolidator/signature.go:66-103 | the loop computes the pre-image of the key list, or that there is none |
| Signature.SamePreImage | services/agent-memory/internal/consolidator/signature.go:66-103 | for roles without LF two lists have the same pre-image if and only if they hold the same set of (role, non-empty fingerprint) pairs |
| Signature.SamePairsSamePreImage | services/agent-memory/internal/consolidator/signature.go:82-92 | order and repeats never matter, whatever the roles hold |
| Signature.EncodeInjective | services/agent-memory/internal/consolidator/signature.go:82 | no two keys share an encoding, colons in roles included |
| Signature.HexReadsBack | services/agent-memory/internal/consolidator/signature.go:82 | fingerprints are written in lower-case hexadecimal: reading the digits gives them back |
| Signature.PreImageLines | services/agent-memory/internal/consolidator/signature.go:92-100 | what is hashed are the encodings of the pairs, one a line, each once, in ascending order |
| StringOrder.BeforeIsLexicographic | services/agent-memory/internal/consolidator/signature.go:92 | that order is lexicographic: at the first difference, the smaller character or the shorter string comes first |
| Signature.JoinInjective | services/agent-memory/internal/consolidator/signature.go:95-100 | lines without LF can be read back from their join |
| Signature.NothingToSign | services/agent-memory/internal/consolidator/signature.go:67-91 | there is no pre-image exactly when no key has a fingerprint |
| Signature.LineFeedInRoleCollides | services/agent-memory/internal/consolidator/signature.go:82-100 | a role that holds LF can imitate two keys |
| Migrator.Migrator.ApplyOne | services/agent-memory/migrations/migrate.go:271-295 | script and journal row land together or not at all, whichever statement fails, and land exactly when nothing failed and the version was not journaled; the error says so unless the acknowledgement of the commit is lost |
| Migrator.Migrator.RevertOne | services/agent-memory/migrations/migrate.go:297-317 | the same for a down script and the deletion of that version's row, which leaves every other row; nothing is tried without a down block |
| Migrator.Migrator.Up | services/agent-memory/migrations/migrate.go:157-178 | the old journal stays in front; behind it come the missing versions in the order of the files, all of them when it succeeds, so that every version is then journaled; otherwise the error names the first one left out, unless an acknowledgement was lost |
| Migrator.Migrator.Down | services/agent-memory/migrations/migrate.go:183-211 | a success empties the journal; otherwise it stops at a version that no file has, that has no down block or whose transaction failed, the error names it, all newer ones are gone and all older ones are untouched; the version itself is gone only if the acknowledgement of its commit was lost |
| Migrator.LookupMeans | services/agent-memory/migrations/migrate.go:192-195 | of several files with a version the last one counts |
| MigratorProperties.AppendKeepsOrder | services/agent-memory/migrations/migrate.go:252-269 | the journal's order goes on being the order of application exactly when no row sorts after the new one |
| MigratorProperties.ApplyKeeps | services/agent-memory/migrations/migrate.go:271-295 | an apply keeps the schema the fold of the up-scripts over the journal, however the transaction ends |
| MigratorProperties.RevertKeeps | services/agent-memory/migrations/migrate.go:297-317 | a revert of the newest version steps that fold back |
| MigratorProperties.UpKeeps | services/agent-memory/migrations/migrate.go:152-178 | Up keeps the fold, and in SELECT's order too it appends a prefix of the missing versions, all of them exactly when it reports no error; otherwise the error names the first one left out |
| MigratorProperties.NextUpIsNoOp | services/agent-memory/migrations/migrate.go:169-177 | after a completed Up the next one changes nothing and succeeds |
| MigratorProperties.DownKeeps | services/agent-memory/migrations/migrate.go:180-211 | Down takes versions off the end of SELECT's order, and completes exactly when each can be reverted and commits; then the original schema is back |
| MigratorProperties.HistoryIsFaithful | services/agent-memory/migrations/migrate.go:157-211 | over every history of Up and Down calls, each possibly failing anywhere, the schema is the fold of the up-scripts over the journal |
| MigratorProperties.CompletedDownRestores | services/agent-memory/migrations/migrate.go:180-211 | after any such history a completed Down restores the original schema and empties the journal |
| MigratorProperties.SameJournalSameSchema | services/agent-memory/migrations/migrate.go:152-211 | two histories that leave the same journal order leave the same schema |
| MigratorProperties.FoldSurvivesExactly | services/agent-memory/migrations/migrate.go:252-269 | for scripts that record their runs, the fold survives an apply exactly when the new row sorts last |
| MigratorProperties.EqualStampsBreakDown | services/agent-memory/migrations/migrate.go:199-209 | with equal applied_at and an earlier-sorting version Down cannot revert anything, although both down scripts undo their up scripts |

## Left out

- FlushPass: the method runs its Drains back to back; Enqueues that run between them are covered by `PassStopsEmpty`, at the level of runs.
- QueuedRowSurvives: `action_json` and `signal_json` stand for JSON values as jsonb compares them; marshalling may change their white space and escapes.
- Append: an error from the writer means nothing was stored; a commit whose acknowledgement is lost is not part of the row writer, only of the migrator.
- Power loss: the offset file is never fsynced, so only process death is decided by this code.
- The WAL lock file: one owner is assumed; reading, probing and removing a stale lock are not atomic.
- A failing `json.Marshal` (NaN weights, an empty but non-nil signal): such an Enqueue touches nothing. An unparsable or negative offset file.
- The flusher's tick, its signal channel and the 30-second and 2-second timeouts: a timeout is a failing environment, fairness is not modelled.
- Open and read errors of RecoverDepth, which make opening the log fail.
- Fault injection, metrics, tracing, latency and logging everywhere; `degraded.Enforce` is a predicate on reasons.
- UUID minting: a source of identifiers that never repeats, and may fail.
- Scores and weights in recall are reals: float rounding is not modelled. A weight in an Observation row is the bits of the float.
- Vector search, embedding, kind normalisation and the snapshot fallbacks of recall and expand: they end in `Degraded` and `GraphOutage`.
- The sidecar's HTTP exchange and the error policy of the reranker wrappers: scores arrive as a map by graph id.
- LoadAgreesWithDisk: checkpoints are saved in one step; a load that meets a directory half-written is not modelled, nor a checkpoint deleted from disk.
- "Same version, same weights" in the sidecar, which does not hold: versions sort the seeds, training does not.
- The edge readers: a call returns the first limit rows of a fixed list per node, with edge ids unique over all nodes.
- ExpandHandler.Expand: the snapshot fallback after an outage and the context log row; it ends in `GraphOutage` there.
- Recall.Recall: the counters `OverFetched` and `Filtered`, the reranker version and its staleness gate, and the context log row.
- Concept citations, prompts, templates and the LLM call of summarize.
- Hashing the signature's pre-image. Strings are sequences of characters, compared one by one as Go compares bytes.
- Parsing migration files into up and down blocks, stripping BEGIN and COMMIT, `Reset`, and two migrators on one database.
- HistoryIsFaithful: a version is assumed to name the same scripts in every release, and PostgreSQL to order versions as Go does.
