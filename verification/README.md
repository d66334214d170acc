# Models of the trading backend's stateful core

This project models the parts of the Cal_Spread backend whose correctness rests on state,
order and interleaving, and proves what their comments, tests and documentation rely on. A
run is a sequence of steps; a goroutine appears as a program counter, and a step is one
critical section, one store call or one callback. Store and network outcomes are
parameters of the steps, so the results hold for every outcome, partial failures included.

| modules | what they cover |
|---|---|
| Ist, Frames, FrameService | IST bucket arithmetic and the four open-interest frames: live append, backfill merge, coarsening, warm load |
| WriteBehind, Pipeline, WriteBuffer | the buffer that collapses writes, its flush batches, partial failure, re-queueing and the backlog cap |
| FrameMirror, DurableMirror | frames, buffer and store together, over runs with flush failures, crashes and broker switches |
| Namespaces, NamespaceService | broker namespaces and epochs: what may commit, under which key, and the backfill flags |
| WorkerPool, WorkerPoolObject | the analytics worker pool: slots, bounded queue, deadlines, late results, disposal |
| HistoricalGate, HistoricalGateObject | the one-slot historical request gate: handover, two classes, watchdog, cancellation, pacing |
| Subscriptions, Coordinator, LaneBudget | refcounted subscription lanes and the analytics token yield |
| LaneFeed, LaneFeedObject | one lane's socket, token sets, reconnect timer and backoff |
| Drains, SerialQueue | single-drainer queues: capture rows and hub callbacks |
| SpikeTrades, SpikeEngine, Window | paper trades over two locks and a store; rolling extrema |
| Utf8, Utf8Decoder, Query, QueryLoops | the UTF-8 decoder and the query printers and parsers |
| OrderedMap | the tombstoned insertion-ordered map |

Code that changes state step by step is a class (or a method with a loop) whose contract
ties the new state to a function of the old one; the results about runs are lemmas about
those functions. `dafny verify dfyconfig.toml` checks everything.

Findings where the code does less than a first reading promises, each with its exact
condition and a concrete case:

- A declared token set leaves refcounts exact only when the owner's leases are disjoint
  (`Subscriptions.SetExactlyWhenDisjoint`, `Subscriptions.OverlapLeaks`); what leaks is
  accounted for exactly (`Subscriptions.CountsAreLeasesPlusLeaks`).
- A capture row pushed between a failed write and the release of the drain flag stays
  queued although nothing failed after the push (`Drains.NothingIsLost`,
  `Drains.FailureBeforePushStrands`).
- A holder of the historical gate overtaken by its watchdog before it stamps its start can
  start together with the next one (`HistoricalGate.WatchdogHarmlessExactly`,
  `HistoricalGate.OvertakenStartsCollide`).
- A store error that had an effect leaves the Spike engine out of step with the store until
  the next load (`SpikeTrades.EntryMatchesExactly`, `SpikeTrades.CloseMatchesExactly`,
  `SpikeTrades.LostInsertDiverges`, `SpikeTrades.LostCloseDiverges`).
- A capture stamped before its requests and applied after a backfill that went further
  breaks the order of its frame (`Frames.AppendOrdersExactly`,
  `Frames.CaptureOvertakenByBackfill`).
- The comment on the namespace reset says a switch cannot lose a closing bucket, because
  buffered writes are kept. A broker switched away from and back to before its buckets are
  flushed is reloaded without them (`DurableMirror.SwitchExactly`,
  `DurableMirror.SwitchBackTooSoon`). After a flush the next load brings such a bucket back
  only if no append, merge or coarsening has written or dropped its stamp in between;
  otherwise it is lost for good (`DurableMirror.HiddenReturnsExactly`), as when the backfill
  that follows every switch writes a partial candle over it
  (`DurableMirror.BackfillLosesHidden`).
- The comment on queryValues says the last segment is always read; the code reads the first
  thousand segments and no other, and the model follows the code (`Query.ReadWholeExactly`,
  `Query.LastSegmentUnread`).

The backlog cap, on the other hand, never drops a bucket of a frame whose broker is returned
to only after a flush (`FrameMirror.CapSparesFrames`, `DurableMirror.UnhurriedMirrorIsExact`).

## Model

| member | source | states |
|---|---|---|
| `Ist.FloorDiv` | internal/analytics/ist.go:34-40 | The division built from truncating operators really floors, for every divisor but zero and negative operands included. |
| `Ist.CeilDiv` | internal/analytics/ist.go:42 | The negated floor is the ceiling for every positive divisor. |
| `Ist.AlignUpLeast` | internal/analytics/ist.go:63-73 | The aligned instant is the least multiple of the bucket size, in IST wall time, at or after t. |
| `Ist.BucketEndRange` | internal/analytics/ist.go:46-73 | A bucket end never leaves the IST day of t nor passes that day's 15:40, and lies at or after t before the close. |
| `Ist.BucketEndLeast` | internal/analytics/ist.go:63-73 | Before the close it is the least bucket boundary (an aligned instant or the close) at or after t. |
| `Ist.PreOpenExactly` | internal/analytics/ist.go:57-73 | A bucket is skipped as pre-open if and only if all the time it covers is at or before 09:15. |
| `Ist.BucketEndMonotone` | internal/analytics/ist.go:63-73 | Bucketing is monotone in time, across days as well. |
| `Ist.BucketEndComposes` | internal/analytics/ist.go:63-73 | Bucketing at a fine size first never changes the coarse bucket when the fine size divides the coarse one, clamp included. |
| `Ist.BucketEndIdempotent` | internal/analytics/ist.go:63-73 | A bucket end is its own bucket end. |
| `Ist.FutureStampIsForming` | internal/analytics/ist.go:63-73 | A stamp later than t within t's bucket is t's own forming bucket. |
| `Ist.StartedCandleIsNotBeyondNow` | internal/analytics/ist.go:57-76 | A minute candle that started before now lands in a pre-open bucket or no later than the bucket of now. |
| `WriteBehind.QueueFieldReads` | internal/analytics/writebehind.go:82-90 | A queued field is what the key will hold over any store; no other field of any key changes, and sets and deletes stay disjoint. |
| `WriteBehind.QueueDropReads` | internal/analytics/writebehind.go:93-103 | Dropped fields will be absent over any store; nothing else changes, and sets and deletes stay disjoint. |
| `WriteBehind.PrefixIsPartial` | internal/analytics/writebehind.go:255-284 | Stopping after any prefix of a batch leaves every field either as it was or as the batch writes it. |
| `WriteBehind.EffectPersists` | internal/analytics/writebehind.go:120-137 | No later command of the same batch undoes a command already sent. |
| `WriteBehind.CompleteFlush` | internal/analytics/writebehind.go:142-182 | A batch whose commands all succeed writes exactly the buffer, in whatever order keys are visited. |
| `WriteBehind.PendingYieldsCommand` | internal/analytics/writebehind.go:142-182 | A buffer has something pending if and only if its batch holds a command. |
| `WriteBehind.MergeValid` | internal/analytics/writebehind.go:316-341 | Re-queueing keeps each key's buffered sets and deletes disjoint. |
| `WriteBehind.CapValid` | internal/analytics/writebehind.go:342-355 | So does the cap. |
| `WriteBehind.MergeRefines` | internal/analytics/writebehind.go:316-341 | Whatever subset of the failed batch reached the store, the merged buffer over it reads like the batch and then the newer writes over the old store. |
| `WriteBehind.MergeKeepsLimit` | internal/analytics/writebehind.go:68-78 | The backlog limit named last is the one that counts. |
| `WriteBehind.CapHashSize` | internal/analytics/writebehind.go:342-355 | The cap leaves at most maxFields entries, and exactly that many when it bites. |
| `WriteBehind.CapLosesExactly` | internal/analytics/writebehind.go:342-355 | Only the numerically smallest surplus fields fall through to the store; every other field, and every plain key, keeps its buffered value. |
| `Pipeline.PutFieldView` | internal/analytics/writebehind.go:82-90 | Queueing a field changes what the finished pipeline will hold for that field alone. |
| `Pipeline.DropFieldsView` | internal/analytics/writebehind.go:93-103 | Queueing deletions removes exactly those fields. |
| `Pipeline.PutPlainView` | internal/analytics/writebehind.go:106-111 | Queueing a whole-key value changes that key alone. |
| `Pipeline.BeginFlushView` | internal/analytics/writebehind.go:156-161 | Detaching the buffer changes nothing a reader of the finished pipeline would see. |
| `Pipeline.FlushDoneView` | internal/analytics/writebehind.go:186-211 | Neither does a flush that succeeds. |
| `Pipeline.FlushFailedView` | internal/analytics/writebehind.go:186-211 | A flush that fails after any subset took effect loses only what the cap gives up. |
| `Pipeline.CapLossExact` | internal/analytics/writebehind.go:342-355 | What the cap gives up: nothing while the backlog fits, else the smallest fields, leaving maxFields, deletions untouched. |
| `Pipeline.StepRefines` | internal/analytics/writebehind.go:82-211 | Every queueing, flush start, success and partial failure keeps buffers over store equal to all queued events applied in order, outside the fields lost to the cap. |
| `Pipeline.LostExactly` | internal/analytics/writebehind.go:342-355 | What counts as lost is exactly what the cap has given up and nobody has queued since. |
| `Pipeline.RunRefines` | internal/analytics/writebehind.go:82-211 | The same over every run. |
| `Pipeline.DrainedStoreIsIntended` | internal/analytics/writebehind.go:186-211 | Once nothing is buffered the store itself holds every queued event, however many flushes failed on the way. |
| `WriteBuffer.ExecOps` | internal/analytics/writebehind.go:255-284 | The store after the first failure is the batch applied up to it, the failing command included only if it took effect; success means all of it. |
| `WriteBuffer.OldestFields` | internal/analytics/writebehind.go:342-355 | The fields picked for removal are exactly the n smallest. |
| `WriteBuffer.Queue.QueueHashField` | internal/analytics/writebehind.go:82-90 | Over any store the key will hold the value and nothing else is affected; sets and deletes stay disjoint; a disabled cache queues nothing. |
| `WriteBuffer.Queue.QueueHashDrop` | internal/analytics/writebehind.go:93-103 | The buffer becomes QueueDrop of the old one; an empty list creates no entry. |
| `WriteBuffer.Queue.QueuePlainWrite` | internal/analytics/writebehind.go:106-111 | Over any store the key will hold the value; no other plain key and no field is affected. |
| `WriteBuffer.Queue.BeginFlush` | internal/analytics/writebehind.go:142-182 | A batch is detached exactly when enabled, idle, pending and ready, with commands for all of it; a request meanwhile is remembered. |
| `WriteBuffer.Queue.RequeueFailedWrites` | internal/analytics/writebehind.go:316-355 | The buffer becomes the capped merge of the failed batch under the newer writes. |
| `WriteBuffer.Queue.SettleFlush` | internal/analytics/writebehind.go:194-210 | A failed batch goes back, a successful one does not, and a flush asked for meanwhile is reported once. |
| `WriteBuffer.Queue.FlushOnce` | internal/analytics/writebehind.go:186-211 | Either the whole buffer is stored, or all of it is back but for the cap while an arbitrary part is stored. |
| `WriteBuffer.Queue.FlushNow` | internal/analytics/writebehind.go:360-394 | Whatever fails over four attempts, waiting for a batch in flight included, success means nothing is left buffered and the store holds everything queued, that batch too if it failed, but for what the cap gave up; giving up leaves all of it buffered. |
| `WriteBuffer.Queue.FlushRepeatedly` | internal/analytics/writebehind.go:361-390 | The attempts themselves: each leaves the store partly applied and the buffer complete, or finishes the job. |
| `Frames.AppendOrdersExactly` | internal/analytics/frames.go:111-144 | An append keeps a frame ordered if and only if its tail is not beyond the bucket of t. |
| `Frames.AppendKeepsInv` | internal/analytics/frames.go:111-144 | At nondecreasing times it keeps stamps distinct, ascending, in retention and none beyond the forming bucket. |
| `Frames.AppendLiveAt` | internal/analytics/frames.go:111-144 | As a map: the bucket of t is replaced, keeping its window if any, and the rest is kept while in retention. |
| `Frames.SortedFrameAt` | internal/analytics/frames.go:197-207 | Sorting loses and invents nothing: exactly the entries in retention, ascending. |
| `Frames.DownsampleAt` | internal/analytics/frames.go:179-194 | A bucket gets something if and only if a candle falls into it, and then it is the last such candle, re-stamped. |
| `Frames.MergeFrameAt` | internal/analytics/frames.go:179-240 | A merge at every stamp: the last candle of a bucket is put in exactly where no point was, or a partial one and the candle is complete; what left retention goes, all else stays. |
| `Frames.StartedCandlesAreNotBeyond` | internal/analytics/frames.go:223-240 | Minute candles that all started before now can be merged: none lands beyond the bucket of now. |
| `Frames.MergeKeepsInv` | internal/analytics/frames.go:223-240 | A merge keeps the frame invariant. |
| `Frames.CoarsenAt` | internal/analytics/frames.go:305-361 | Coarsening at every stamp, for any frames: exactly the buckets that are missing or partial, over, in retention and closed by a complete finer point are filled, with that point; when there is none nothing changes. |
| `Frames.FillExactly` | internal/analytics/frames.go:305-350 | What a coarsening finds to fill is exactly that, with the points that close them. |
| `Frames.CoarsenKeepsInv` | internal/analytics/frames.go:326-361 | Coarsening keeps the frame invariant. |
| `Frames.MergeImproves` | internal/analytics/frames.go:223-240 | On any frame, a complete bucket in retention is untouched, none disappears and a partial one only becomes complete. |
| `Frames.CoarsenImproves` | internal/analytics/frames.go:326-361 | The same for coarsening. |
| `Frames.LiveRunHoldsLast` | internal/analytics/frames.go:111-144 | For any nondecreasing captures from an empty frame, each bucket in retention holds the last capture made in it, and one without a capture is absent. |
| `Frames.LiveFramesAgree` | internal/analytics/frames.go:111-144 | For any nondecreasing captures from empty frames, every fine point that closes a coarse bucket is in the coarse frame with the same payload. |
| `Frames.CoarseningLiveFramesIsIdle` | internal/analytics/frames.go:305-361 | So coarsening frames built by live captures fills nothing and changes nothing. |
| `Frames.WarmLoadedAt` | internal/analytics/frames.go:422-447 | A warm load adds the stored buckets under those already in memory, sorted. |
| `Frames.OvertakenAppendBreaksOrder` | internal/analytics/frames.go:111-144 | A capture applied after a backfill that put in a later bucket breaks the order of the frame, whatever the frame. |
| `Frames.CaptureOvertakenByBackfill` | internal/analytics/capture.go:139-235 | One such case: stamped at 10:00 before its requests, applied after a backfill at 10:06. |
| `FrameMirror.PersistWholeMirrors` | internal/analytics/frames.go:281-301 | Persisting a rebuilt frame leaves the durable copy equal to its closed buckets. |
| `FrameMirror.AppendMirrors` | internal/analytics/frames.go:111-144 | Writing only the last two buckets and dropping the expired ones keeps the whole durable copy equal to the closed buckets. |
| `FrameMirror.FrameIsSmall` | internal/analytics/frames.go:20-25 | No frame can hold as many buckets as the backlog cap allows. |
| `FrameMirror.CapSparesFrames` | internal/analytics/writebehind.go:342-355 | The backlog cap therefore never gives up a bucket of a frame whose durable copy has not strayed from memory. |
| `FrameMirror.LandedMirrored` | internal/analytics/writebehind.go:255-284 | While part of a batch has reached the store and the rest is in flight, every frame stays mirrored. |
| `FrameMirror.FailedMirrored` | internal/analytics/writebehind.go:316-355 | A flush that fails partway keeps every frame mirrored, apart from what the cap gives up, which reads as stored. |
| `FrameMirror.FailedTidy` | internal/analytics/writebehind.go:316-355 | For a frame whose durable copy has not strayed, a failing flush gives up nothing. |
| `FrameMirror.RestoredAt` | internal/analytics/warmload.go:115-131 | A restarted process holds exactly the stored buckets in retention. |
| `FrameMirror.ReloadMirrored` | internal/analytics/warmload.go:115-144 | A frame reloaded at any moment is mirrored from the retention cutoff on, exactly but for what the buffers hide from the load. |
| `DurableMirror.EventKeeps` | internal/analytics/frames.go:111-361 | Every append, merge, coarsening, foreign write, flush event (a partly landed batch included), crash, and switch at any moment keeps all eight frames mirrored up to their ledgers. |
| `DurableMirror.DurableMirrorHolds` | internal/analytics/frames.go:111-361 | Over every run, with partial flush failures, crashes and broker switches at any moment, in-flight then pending writes over the store give, under each broker's key of each frame, the buckets closed at that frame's last operation; where the ledger of the frame has an entry, they give that entry. |
| `DurableMirror.FramesFollow` | internal/analytics/frames.go:111-361 | What each frame operation leaves in memory over a run: the append, unless the bucket is pre-open, the merge or the coarsened frame; no other frame moves. |
| `DurableMirror.LedgerStep` | internal/analytics/frames.go:111-361 | An entry leaves the ledger exactly when its stamp is written or dropped again, and only the cap adds one: no other step short of a reload touches it. |
| `DurableMirror.UnhurriedMirrorIsExact` | internal/analytics/frames.go:111-361 | Over every run that returns to the frame's broker only with nothing buffered for it there is no exception at all: the durable copy is exactly the closed buckets, and the cap takes nothing. |
| `DurableMirror.FloorsStay` | internal/analytics/frames.go:111-361 | Until a restart or a return to the broker the durable copy is known over all of time. |
| `DurableMirror.ReloadedExactly` | internal/analytics/warmload.go:115-144 | A frame reloaded wherever the flushes stand is its durable copy in retention, except where the buffers hide something, and there it is what the store had. |
| `DurableMirror.FlushedRestartRoundTrip` | internal/analytics/warmload.go:115-144 | Flushing, stopping and warm-loading returns the durable copy still in retention: exactly the completed buckets where the ledger is silent. |
| `DurableMirror.SlotKeysDiffer` | internal/analytics/namespace.go:112-117 | No two frames of either broker share a key. |
| `DurableMirror.OthersFrozen` | internal/analytics/namespace.go:26-45 | Nothing that happens under one broker moves the other's frames or the reach of its durable copy. |
| `DurableMirror.AwayAndBackRoundTrip` | internal/analytics/namespace.go:26-45 | Leaving a broker, running under the other through any flush failures and coming back at any moment: of a frame whose durable copy had not strayed, each bucket completed when it was left is back in memory, or still hidden in the buffers with its value. |
| `DurableMirror.SwitchExactly` | internal/analytics/namespace.go:42-45 | A switch hides nothing of a frame if and only if nothing buffered in retention was still to be written. |
| `DurableMirror.LedgerSurvives` | internal/analytics/namespace.go:42-45 | Over a run a hidden bucket stays in the buffers or the store, with its value, if and only if no append, merge or coarsening writes or drops its stamp. |
| `DurableMirror.HiddenReturnsExactly` | internal/analytics/namespace.go:42-45 | The load after the next flush returns a hidden bucket if and only if its stamp was left alone since (or memory holds that very value); otherwise the load returns what memory held and the bucket is lost. |
| `DurableMirror.SwitchBackTooSoon` | internal/analytics/namespace.go:42-45 | A run that switches away and back before any flush: the bucket is gone from memory and hidden in the buffer. |
| `DurableMirror.BackfillLosesHidden` | internal/analytics/scheduler.go:165-200 | And the backfill that follows a switch overwrites that complete bucket with a partial one. |
| `FrameService.CoarsenSourceFor` | internal/analytics/frames.go:38-59 | The coarsest finer frame that tiles and reaches as far back: 15m for 1h, none otherwise. |
| `FrameService.Service.QueueClosed` | internal/analytics/frames.go:281-290 | Exactly the closed points are queued, in order. |
| `FrameService.Service.Prune` | internal/analytics/frames.go:128-134 | Exactly the leading expired points go, and their stamps are returned. |
| `FrameService.Service.AppendFrame` | internal/analytics/frames.go:111-144 | One frame's share of a capture: the append and its mirror writes, nothing at all for a pre-open bucket. |
| `FrameService.Service.AppendOiFrameLive` | internal/analytics/frames.go:111-144 | Every frame and the buffer after one capture. |
| `FrameService.BufferAfterAt` | internal/analytics/frames.go:111-144 | One capture queues under each frame's key exactly what that frame's own append queues, and nothing under the key of a skipped one. |
| `FrameService.Service.PersistWholeFrame` | internal/analytics/frames.go:281-301 | The buffer becomes QueueWhole of the old one: closed points written, departed stamps dropped. |
| `FrameService.Service.MergeOiFrame` | internal/analytics/frames.go:223-240 | Frame and buffer after a backfill merge. |
| `FrameService.Service.CollapseToBuckets` | internal/analytics/frames.go:305-322 | The loop keeps exactly the points that close a bucket that is over and not pre-open. |
| `FrameService.Service.FindFill` | internal/analytics/frames.go:326-350 | Exactly the recoverable buckets, with the points that close them. |
| `FrameService.Service.CoarsenOiFrame` | internal/analytics/frames.go:326-361 | Frame, buffer and the number filled after a coarsening; nothing at all when it fills nothing. |
| `FrameService.Service.MergeWarmLoaded` | internal/analytics/frames.go:422-447 | The merged frame, memory winning, and the number of stamps that were new. |
| `Namespaces.CacheKeyTellsBroker` | internal/analytics/namespace.go:112-117 | The key alone tells whose data it is. |
| `Namespaces.CacheKeysNeverCollide` | internal/analytics/namespace.go:112-117 | Two brokers' keys never coincide, nor two keys of one. |
| `Namespaces.StepFenced` | internal/analytics/namespace.go:26-110 | Every switch, commit of fields, whole values and deletions, unscoped coarsening, backfill start or end, store read and flush event keeps memory, buffers, store and single-flight flags fenced. |
| `Namespaces.RunFenced` | internal/analytics/namespace.go:26-110 | The same over every run. |
| `Namespaces.NamespaceFencing` | internal/analytics/backfill.go:156-179 | In every interleaving memory is the current epoch's own, every buffered or stored field and whole value is under its broker's key, and a family has at most one backfill per epoch, late endings included. |
| `Namespaces.OtherBrokerUntouched` | internal/analytics/writebehind.go:68-78 | No step under one broker, deletions and derived writes included, changes what the other broker's keys will hold. |
| `Namespaces.DeriveFenced` | internal/analytics/frames.go:398-418 | Coarsening, which writes with no scope check, is fenced by what memory may hold. |
| `Namespaces.ReadsBring` | internal/analytics/warmload.go:35-81 | A read brings an operation all that is stored under its own broker's key, fields or whole value, and nothing else. |
| `Namespaces.FetchBrings` | internal/analytics/backfill.go:184-310 | Provider data reaches the operation as its broker's. |
| `Namespaces.CurrentWritesLand` | internal/analytics/writebehind.go:68-111 | A current operation's bucket, whole value or deletion lands under the current broker's key, at exactly its fields. |
| `Namespaces.StaleWritesNothing` | internal/analytics/namespace.go:68-70 | A superseded operation writes nothing at all. |
| `Namespaces.DerivedLands` | internal/analytics/frames.go:398-418 | A coarsened bucket is in memory, and will be in its field, as the broker's own. |
| `Namespaces.SupersededExactly` | internal/analytics/namespace.go:47-70 | Exactly an invalidation, the stop or another namespace supersedes an operation. |
| `NamespaceService.ScopedService.ResetNamespaceLocked` | internal/analytics/namespace.go:26-45 | A new epoch: no operation begun before can commit any more, memory is empty, buffered writes are untouched, and the fence holds. |
| `NamespaceService.ScopedService.SyncNamespaceLocked` | internal/analytics/namespace.go:47-52 | Afterwards the scope is the registry's, and if that was news everything begun before is superseded; the fence holds. |
| `NamespaceService.ScopedService.BeginOperation` | internal/analytics/namespace.go:72-92 | Valid exactly when the service runs, the caller is live and its namespace and enclosing operation, if any, are the current ones; then the operation is current and holds nothing yet. |
| `NamespaceService.ScopedService.CommitFrames` | internal/analytics/backfill.go:401-410 | All the operation holds is in memory if it is current, and memory is untouched otherwise; either way memory stays this broker's. |
| `NamespaceService.ScopedService.QueueMirrorWrite` | internal/analytics/writebehind.go:68-78 | Exactly one field of the scope's own key will hold the bucket, or nothing changes when the operation was superseded; the fence holds. |
| `NamespaceService.ScopedService.BeginBackfill` | internal/analytics/backfill.go:156-171 | Whoever starts is alone in its family and epoch; the fence holds. |
| `NamespaceService.ScopedService.EndBackfill` | internal/analytics/backfill.go:173-179 | The current epoch's backfill frees its family; a superseded one, ending late, leaves the flag of its successor up. |
| `WorkerPool.FirstIdle` | internal/fairvalue/workers.go:118-124 | The first idle slot in slot order; none only when every slot holds a job. |
| `WorkerPool.DispatchKeepsJobs` | internal/fairvalue/workers.go:114-139 | Dispatching loses and duplicates no job and leaves none queued while a permitted slot is free. |
| `WorkerPool.DispatchKeepsOrder` | internal/fairvalue/workers.go:114-139 | Jobs leave the queue in the order in which they were accepted. |
| `WorkerPool.DispatchDisturbsNothing` | internal/fairvalue/workers.go:114-139 | No job under way is disturbed, and a slot is opened only when every other one is busy. |
| `WorkerPool.SubmitKeeps` | internal/fairvalue/workers.go:88-104 | A submission keeps all invariants, order of service included; a refusal, exactly when disposed or full, changes nothing, and otherwise one more job is accepted. |
| `WorkerPool.FinishKeeps` | internal/fairvalue/workers.go:167-185 | So does a result, on time or late. |
| `WorkerPool.FinishLeavesOthers` | internal/fairvalue/workers.go:167-185 | The worker is free, no other job under way is disturbed, and a late result changes nothing else at all. |
| `WorkerPool.FailKeeps` | internal/fairvalue/workers.go:187-211 | So does a deadline, live or stale. |
| `WorkerPool.DisposeKeeps` | internal/fairvalue/workers.go:227-245 | Everything accepted and not settled is settled once, as stopped, and no slot is left. |
| `WorkerPool.StepKeeps` | internal/fairvalue/workers.go:88-245 | Every step keeps: sends neither block nor hit a closed channel, each job in exactly one place, no idle capacity with work queued. |
| `WorkerPool.EventsTouchOnlyTheirJob` | internal/fairvalue/workers.go:167-211 | A result or deadline settles only the job its own slot still holds; a stale deadline changes nothing. |
| `WorkerPool.RunExtends` | internal/fairvalue/workers.go:88-245 | Every enabled step extends every run, so no run is excluded. |
| `WorkerPool.PoolSafety` | internal/fairvalue/workers.go:88-245 | Over every run: slots within the limit, each accepted job in one place and settled at most once, none waiting while a permitted slot is free, jobs leaving the queue in order of acceptance, and failures counting the failed jobs. |
| `WorkerPoolObject.Workers.constructor` | internal/fairvalue/workers.go:79-81 | A new pool satisfies the invariants. |
| `WorkerPoolObject.Workers.FindIdle` | internal/fairvalue/workers.go:114-125 | The loop returns the first idle slot. |
| `WorkerPoolObject.Workers.OpenSlot` | internal/fairvalue/workers.go:141-151 | A slot never used before, live, idle and with an empty channel, so that a send to it cannot block; no other slot is touched and the invariant holds. |
| `WorkerPoolObject.Workers.DispatchLocked` | internal/fairvalue/workers.go:114-139 | The loop computes Dispatch of the old state. |
| `WorkerPoolObject.Workers.Submit` | internal/fairvalue/workers.go:88-104 | The pool after a submission, and whether it was accepted. |
| `WorkerPoolObject.Workers.Finish` | internal/fairvalue/workers.go:167-185 | The pool after a worker returns. |
| `WorkerPoolObject.Workers.FailSlot` | internal/fairvalue/workers.go:187-211 | The pool after a deadline fires. |
| `WorkerPoolObject.Workers.Dispose` | internal/fairvalue/workers.go:227-245 | The pool after disposal. |
| `HistoricalGate.EnqueueOrdered` | internal/kite/historical_gate.go:118-131 | Insertion keeps all interactive before all background, each class by arrival. |
| `HistoricalGate.RemoveOrdered` | internal/kite/historical_gate.go:135-150 | Cancelling a waiter keeps the service order. |
| `HistoricalGate.StepKeeps` | internal/kite/historical_gate.go:79-163 | Arrival, handover, cancellation, watchdog, return and time keep one owner when busy, none and no waiter when free. |
| `HistoricalGate.RunExtends` | internal/kite/historical_gate.go:79-163 | Every enabled step extends every run. |
| `HistoricalGate.GateSafety` | internal/kite/historical_gate.go:79-163 | In every interleaving the slot is neither lost nor released twice, and the queue stays in service order. |
| `HistoricalGate.HandoverOrder` | internal/kite/historical_gate.go:153-163 | The slot goes to the waiter all others come after. |
| `HistoricalGate.GapEndLeast` | internal/kite/historical_gate.go:91-102 | A holder may start at the first moment that keeps the gap: at once when it is already over. |
| `HistoricalGate.LettingGo` | internal/kite/historical_gate.go:83-88 | Whoever lets go of the slot, the watchdog included, owns it no longer: the head of the queue does, or the gate is free; a second letting go moves nothing. |
| `HistoricalGate.StartsAreSpaced` | internal/kite/historical_gate.go:79-109 | Over whole runs: if each holder stamps its start before its watchdog fires, successive starts are at least minGap apart. |
| `HistoricalGate.WatchdogHarmlessExactly` | internal/kite/historical_gate.go:83-107 | A watchdog is harmless if and only if the holder had stamped its start (or there is no gap): only then do starts stay spaced however the gate goes on. |
| `HistoricalGate.OvertakenStartsCollide` | internal/kite/historical_gate.go:79-109 | From a new gate a run with an overtaken holder ends with two starts too close. |
| `HistoricalGateObject.Monitor.constructor` | internal/kite/historical_gate.go:51-55 | A new gate is free and keeps the invariants. |
| `HistoricalGateObject.Monitor.Acquire` | internal/kite/historical_gate.go:111-131 | Take a free slot or join the queue at the class's place; one owner, queue in service order. |
| `HistoricalGateObject.Monitor.Release` | internal/kite/historical_gate.go:153-163 | The slot goes to a waiter that comes before every other, who owns it from then on, or the gate is free. |
| `HistoricalGateObject.Monitor.Abandon` | internal/kite/historical_gate.go:135-150 | A cancelled waiter leaves the queue, or passes on the slot it was just handed. |
| `HistoricalGateObject.Monitor.LeaveQueue` | internal/kite/historical_gate.go:138-145 | The search removes the waiter, or reports that it was not queued and changes nothing. |
| `HistoricalGateObject.Monitor.ReleaseOnce` | internal/kite/historical_gate.go:83-88 | The watchdog and the end of the call release the slot once between them, to the head of the queue if there is one. |
| `HistoricalGateObject.Monitor.ReadGap` | internal/kite/historical_gate.go:90-101 | The start is allowed at the least moment, from now on, that keeps the gap to the last one; now, when the gap is over. |
| `HistoricalGateObject.Monitor.StampStart` | internal/kite/historical_gate.go:102-107 | The start is stamped with the clock once the gap is over. |
| `HistoricalGateObject.Monitor.Wake` | internal/kite/historical_gate.go:133-135 | A waiter that was handed the slot holds it. |
| `Subscriptions.AcquireKeeps` | internal/brokers/subscriptions.go:127-156 | A lease keeps counts, totals and upstream set exact. |
| `Subscriptions.AcquireEffect` | internal/brokers/subscriptions.go:127-156 | A lease is on record, each of its tokens counts one more for its owner and nothing else differently, and the transport streams its tokens too. |
| `Subscriptions.ReleaseEffect` | internal/brokers/subscriptions.go:194-213 | A release takes the lease off the record, one from each of its owner's counts, and from the transport exactly the tokens nobody else held. |
| `Subscriptions.ReleaseKeeps` | internal/brokers/subscriptions.go:176-213 | So does a release, of a live or an unknown lease. |
| `Subscriptions.SetCountAt` | internal/brokers/subscriptions.go:218-280 | What a declaration does to each count on any table calls can lead to, overlapping leases or not. |
| `Subscriptions.SetSurplus` | internal/brokers/subscriptions.go:218-280 | A declaration turns every lease of the owner on a token but one into surplus. |
| `Subscriptions.SetKeepsUpstream` | internal/brokers/subscriptions.go:218-280 | The transport is told exactly the change in the table, with nothing redundant. |
| `Subscriptions.SetTellsChanges` | internal/brokers/subscriptions.go:218-283 | The transport is told exactly what changed: a token held before and after is neither dropped nor subscribed again. |
| `Subscriptions.SetExactlyWhenDisjoint` | internal/brokers/subscriptions.go:218-280 | A declaration leaves the counts exact if and only if no token was in two of the owner's leases. |
| `Subscriptions.DoubleLeaseLeaks` | internal/brokers/subscriptions.go:218-280 | Any doubly leased token stays counted and subscribed after an empty declaration. |
| `Subscriptions.OverlapLeaks` | internal/brokers/subscriptions.go:218-280 | A concrete table where it does so with no lease left. |
| `Subscriptions.RefcountsHold` | internal/brokers/subscriptions.go:127-293 | Over every run in which no owner mixes leases and declarations: counts equal live leases, a token is present exactly when its total is positive, and the replayed transport calls give that set. |
| `Subscriptions.AnyRunCovered` | internal/brokers/subscriptions.go:127-293 | Over every run, leases and declarations mixed at will: totals right, transport told exactly the tokens present, no count short of its leases. |
| `Subscriptions.CountsAreLeasesPlusLeaks` | internal/brokers/subscriptions.go:127-293 | Conservation: in every run each count is the live leases plus exactly what overlaps leaked since the last reset. |
| `Subscriptions.GoneLeaseStaysGone` | internal/brokers/subscriptions.go:194-213 | A lease that is gone never acts again, whatever happens in between. |
| `Subscriptions.ReleasedStaysGone` | internal/brokers/subscriptions.go:101-108 | In particular a released one: a second release, at any time, does nothing. |
| `Coordinator.DistinctValid` | internal/brokers/subscriptions.go:110-123 | The positive tokens, each once. |
| `Coordinator.CountUp` | internal/brokers/subscriptions.go:136-149 | The counting loop adds one per token and reports exactly the new tokens. |
| `Coordinator.CountDown` | internal/brokers/subscriptions.go:176-213 | The counting loop takes one per token and reports exactly the tokens gone. |
| `Coordinator.Lane.Acquire` | internal/brokers/subscriptions.go:127-156 | The table after a lease under a name not in use; an exact table stays exact, a leaky one covered. |
| `Coordinator.Lane.ReleaseLease` | internal/brokers/subscriptions.go:194-213 | The table after a release; an exact table stays exact, a leaky one covered. |
| `Coordinator.Lane.SetOwnerTokens` | internal/brokers/subscriptions.go:218-280 | The table after a declaration, on any table calls can lead to; an exact table stays exact if and only if the owner's leases were disjoint. |
| `Coordinator.Lane.ResetForBrokerSwitch` | internal/brokers/subscriptions.go:285-293 | Whatever had leaked the table is exact again, and no lease from before changes it however the calls go on. |
| `LaneBudget.YieldToPriority` | internal/fairvalue/engine.go:650-678 | The loop computes the shortened list. |
| `LaneBudget.YieldedFits` | internal/fairvalue/engine.go:650-678 | Shared tokens all stay, and the exclusive ones fit the spare room. |
| `LaneBudget.YieldedExactly` | internal/fairvalue/engine.go:660-670 | Exactly which tokens stay: the shared ones, and of the others the first ones wanted, as many as the reserve leaves room for. |
| `LaneBudget.YieldedOrder` | internal/fairvalue/engine.go:660-670 | In which order: the shared ones first, each kind as it was wanted. |
| `LaneBudget.YieldLeavesAlone` | internal/fairvalue/engine.go:670-673 | When no token has to go nothing is declared again. |
| `LaneBudget.PriorityIs` | internal/brokers/subscriptions.go:344-371 | The priority set is what other owners will hold, computed from counts. |
| `LaneBudget.YieldKeeps` | internal/fairvalue/engine.go:650-678 | Yielding touches nobody else, keeps the table exact and every shared token held, and fits the rest into the room left, also just after a broker switch. |
| `LaneBudget.AcquireWithinBudget` | internal/brokers/subscriptions.go:344-371 | After a non-analytics lease the lane fits the larger of the reserve and what the others hold, and no token shared with them is yielded. |
| `LaneBudget.SetWithinBudget` | internal/brokers/subscriptions.go:344-371 | The same after a declaration. |
| `LaneBudget.AcquireServes` | internal/brokers/subscriptions.go:127-156 | Whoever leases gets all it asked for, and no owner but analytics loses anything. |
| `LaneBudget.SetServes` | internal/brokers/subscriptions.go:218-283 | Likewise for a declaration, which replaces the owner's earlier tokens. |
| `LaneBudget.LaneStepKeeps` | internal/brokers/registry/switch.go:67-75 | Leases, declarations, releases, new universes, Fair Value's reset and the table's at a broker switch all keep the lane invariant. |
| `LaneBudget.BudgetHolds` | internal/brokers/subscriptions.go:344-371 | Over every run from a new lane the budget holds and shared tokens are kept whenever another owner has just changed its holdings. |
| `LaneFeed.ReconnectDelay` | internal/kite/lanefeed.go:493-507 | The capped doubling loop gives min(max, base times 2 to the attempts). |
| `LaneFeed.StepKeepsSocket` | internal/kite/lanefeed.go:209-407 | Every callback and call keeps: at most one live socket, told exactly wanted; subscribed within wanted and equal while connected; nothing without a socket. |
| `LaneFeed.StepKeepsTimer` | internal/kite/lanefeed.go:467-525 | And: at most one reconnect pending, cancelled timers never current. |
| `LaneFeed.StepKeepsDelays` | internal/kite/lanefeed.go:493-524 | Each delay asked for is the documented backoff, and each reconnect in a row waits by one more doubling from the base delay. |
| `LaneFeed.NeverOpens` | internal/kite/lanefeed.go:456-525 | A stopped feed never opens a socket, and a cancelled timer changes nothing when it fires. |
| `LaneFeed.OpensExactly` | internal/kite/lanefeed.go:209-242 | A socket is opened exactly by a call that comes back with credentials while there is none and the feed runs. |
| `LaneFeed.SetEffect` | internal/kite/lanefeed.go:315-356 | Exactly the positive tokens declared are wanted, and a feed without a socket asks for one if there are any. |
| `LaneFeed.SubscribeEffect` | internal/kite/lanefeed.go:359-385 | Exactly the positive tokens given are wanted as well, and a feed without a socket asks for one. |
| `LaneFeed.UnsubscribeEffect` | internal/kite/lanefeed.go:388-407 | Exactly the tokens given are wanted no more. |
| `LaneFeed.TimerEffect` | internal/kite/lanefeed.go:493-524 | A timer that was not cancelled asks for a socket when there is none; any other asks for nothing. |
| `LaneFeed.CloseEffect` | internal/kite/lanefeed.go:299-311 | Losing the socket in use schedules a reconnect exactly when something is wanted; a late callback changes nothing. |
| `LaneFeed.StopEffect` | internal/kite/lanefeed.go:456-465 | After a stop nothing is open, scheduled or wanted, and no step whatever opens a socket. |
| `LaneFeed.FeedSafety` | internal/kite/lanefeed.go:209-525 | All of this over every run, late callbacks and racing opens included. |
| `LaneFeedObject.ZerodhaFeed.StartEnsureSocket` | internal/kite/lanefeed.go:209-216 | The call goes on only while idle, and the invariant that no cancelled timer is behind such a call is kept. |
| `LaneFeedObject.ZerodhaFeed.OpenSocket` | internal/kite/lanefeed.go:217-242 | Of racing calls at most one opens, none after a stop, and the socket starts with all that is wanted; the invariant is kept. |
| `LaneFeedObject.ZerodhaFeed.OnOpen` | internal/kite/lanefeed.go:268-281 | The socket in use streams all that is wanted; a late callback changes nothing; the invariant is kept. |
| `LaneFeedObject.ZerodhaFeed.OnError` | internal/kite/lanefeed.go:283-297 | Nothing stays open or scheduled after a terminal error of the socket in use; a late callback changes nothing; the invariant is kept. |
| `LaneFeedObject.ZerodhaFeed.OnClose` | internal/kite/lanefeed.go:299-311 | A reconnect is scheduled exactly when something is wanted; a late callback changes nothing; the invariant is kept. |
| `LaneFeedObject.ZerodhaFeed.SetTokens` | internal/kite/lanefeed.go:315-356 | The feed after a whole declaration, drops told before adds; the invariant is kept. |
| `LaneFeedObject.ZerodhaFeed.SubscribeTokens` | internal/kite/lanefeed.go:359-385 | The feed after an addition; the invariant is kept. |
| `LaneFeedObject.ZerodhaFeed.UnsubscribeTokens` | internal/kite/lanefeed.go:388-407 | The feed after a removal; the invariant is kept. |
| `LaneFeedObject.ZerodhaFeed.TeardownLocked` | internal/kite/lanefeed.go:467-480 | No socket, no reconnect and nothing subscribed is left, and the invariant is kept. |
| `LaneFeedObject.ZerodhaFeed.ScheduleReconnectLocked` | internal/kite/lanefeed.go:493-525 | At most one timer, none without wanted tokens, with the documented delay. |
| `LaneFeedObject.ZerodhaFeed.OnTimer` | internal/kite/lanefeed.go:511-524 | A cancelled timer starts nothing; a live one leaves no reconnect pending; the invariant is kept. |
| `LaneFeedObject.ZerodhaFeed.Stop` | internal/kite/lanefeed.go:456-465 | Nothing is open, scheduled or wanted, and no later step opens a socket; the invariant is kept. |
| `Drains.StepKeepsDrainer` | internal/captures/hourly.go:320-360 | One drainer exactly while the flag is up. |
| `Drains.StepKeepsHead` | internal/captures/hourly.go:331-359 | The drainer works on the head, and a row leaves only after its own successful write. |
| `Drains.StepKeepsWake` | internal/captures/hourly.go:331-341 | After a push someone drains or still owes a drain; an empty finding is never stale. |
| `Drains.PushAdds` | internal/captures/hourly.go:177-181 | A push adds its row at the end and disturbs no drain. |
| `Drains.DrainWritesAll` | internal/captures/hourly.go:320-360 | While nothing fails a drain writes everything queued, in order, and ends by finding the queue empty. |
| `Drains.DrainOrder` | internal/captures/hourly.go:320-360 | In every interleaving rows are written one at a time in push order, each at most one ahead of its removal. |
| `Drains.NothingIsLost` | internal/captures/eod.go:130-177 | When all have returned the queue is empty if and only if the last push or drain end was a drain that found nothing or left nothing; it is never a push. |
| `Drains.CancelledBothWays` | internal/captures/hourly.go:353-357 | A cancelled pause may leave rows and may not: a run for each. |
| `Drains.FailureBeforePushStrands` | internal/captures/hourly.go:343-349 | Timing the failure at the write is not enough: a run with no failure after the last push that leaves both rows queued. |
| `Drains.CaptureQueue.Push` | internal/captures/eod.go:120-124 | Conservation: the row joins what was pushed, which stays exactly the stored rows followed by the queued ones. |
| `Drains.CaptureQueue.DrainCacheToDB` | internal/captures/hourly.go:320-360 | Undisturbed, it stores and removes exactly the rows before the first failure or cancelled pause, and nothing pushed is lost. |
| `SerialQueue.StepKeepsQueue` | internal/hub/hub.go:671-700 | One drainer, deliveries plus the one under way plus the queue are the pushes in order, and nobody waits unserved. |
| `SerialQueue.StepKeepsListener` | internal/hub/hub.go:637-654 | What a listener will be told alternates from the state it registered in and ends with the current one. |
| `SerialQueue.StepEffect` | internal/hub/hub.go:637-681 | The state is the one notified last; a change with a listener is queued once, a repeat or an unheard one not at all; a new listener is queued its state. |
| `SerialQueue.ListenersSeeChangesInOrder` | internal/hub/hub.go:343-357 | In every interleaving a listener sees its first state and then strict alternation, and when all drains have returned the last state it saw is current. |
| `SerialQueue.Serial.Drain` | internal/hub/hub.go:683-700 | Undisturbed, it runs the whole queue in order; a nested call returns at once. |
| `SpikeTrades.LoadRestores` | internal/spike/engine.go:199-207 | A load makes memory equal the store's open rows whatever it held before. |
| `SpikeTrades.InsertMatches` | internal/spike/engine.go:483-505 | When memory matches the store a symbol not held has no open row. |
| `SpikeTrades.CloseMatches` | internal/spike/actions.go:65-75 | A close finds its row open and removes exactly that trade. |
| `SpikeTrades.StepKeepsOp` | internal/spike/engine.go:183-243 | What an operation established under the first lock still holds at its store call, ticks and Invalidate notwithstanding. |
| `SpikeTrades.StepKeepsMatch` | internal/spike/engine.go:483-512 | Every step keeps memory and store in step, an operation between its store call and its commit accounting for the difference. |
| `SpikeTrades.TradesMatch` | internal/spike/engine.go:183-512 | Over every run, if an error means no effect: memory equals the open rows whenever opMu is free after the first load; and in any run no symbol has two open rows. |
| `SpikeTrades.IndexNeverFires` | internal/spike/engine.go:483-512 | Over every honest run an entry that goes on to its insert finds no open row for its symbol, whatever Invalidate cleared and candidates were queued. |
| `SpikeTrades.CandidatesInOrder` | internal/spike/engine.go:435-442 | Over every run candidates are received in the order of their signals, each once and none lost. |
| `SpikeTrades.ClosedStaysClosed` | internal/spike/store.go:117-131 | Rows are never removed and a closed one never reopens, lost replies or not. |
| `SpikeTrades.ClosedIsNotHeldOpen` | internal/spike/actions.go:31-78 | A closed trade is not among the open ones in memory. |
| `SpikeTrades.EntryMatchesExactly` | internal/spike/engine.go:483-512 | After an entry memory matches the store if and only if the insert did not take effect with its reply lost. |
| `SpikeTrades.CloseMatchesExactly` | internal/spike/actions.go:65-75 | The same for a close. |
| `SpikeTrades.LostInsertDiverges` | internal/spike/engine.go:483-512 | A run from a new engine that loses an insert's reply ends out of step with the store. |
| `SpikeTrades.LostCloseDiverges` | internal/spike/actions.go:65-75 | The same for a close. |
| `SpikeEngine.TradeDesk.QueueCandidate` | internal/spike/engine.go:419-442 | A signal is queued if and only if the engine is live with entries on, holds no trade and no marker for the symbol, and the channel has room. |
| `SpikeEngine.TradeDesk.Invalidate` | internal/spike/engine.go:314-321 | Queued candidates stay, nothing more is queued until the engine is active again, and the trade invariants are kept. |
| `SpikeEngine.TradeDesk.BeginEnter` | internal/spike/engine.go:483-490 | An entry goes on if and only if it is in time, the engine is live and ready under the candidate's namespace with entries on, and the symbol is free; then, if memory was in step, it has no open row. |
| `SpikeEngine.TradeDesk.EndEnter` | internal/spike/engine.go:496-511 | Memory matches the store again, and no other trade's marker is taken away. |
| `SpikeEngine.TradeDesk.FindOpen` | internal/spike/actions.go:39-45 | The search by id is complete. |
| `SpikeEngine.TradeDesk.BeginClose` | internal/spike/actions.go:31-66 | Only a held trade with a live book is closed, and its row is open if memory was in step. |
| `SpikeEngine.TradeDesk.EndClose` | internal/spike/actions.go:71-77 | Memory matches the store again, without the trade, which leads the closed ones. |
| `SpikeEngine.TradeDesk.IndexRows` | internal/spike/engine.go:204-207 | The map from symbol to trade that the loading loop builds. |
| `SpikeEngine.TradeDesk.EndLoad` | internal/spike/engine.go:202-207 | Memory matches the store, whatever it held before. |
| `SpikeEngine.ReconcileLoads` | internal/spike/engine.go:188-199 | The store is read exactly when nothing was loaded yet or the day has changed. |
| `SpikeEngine.ReadyEffect` | internal/spike/engine.go:244-289 | The engine goes live exactly when the runtime is ready and nothing overtook the reconcile; markers of another namespace do not survive. |
| `SpikeEngine.SwitchesTake` | internal/spike/engine.go:323-333 | Connection, stop, runtime and paper switches set their own flag and leave trades and candidates alone. |
| `Window.FirstRecordIsLatest` | internal/spike/window.go:3-8 | The first record is the extreme of all samples, the latest one if several tie. |
| `Window.AddKeepsRecords` | internal/spike/window.go:10-19 | Popping the back and appending keeps the records of everything seen. |
| `Window.TrimKeepsRecords` | internal/spike/window.go:22-28 | Trimming the records equals taking the records of the trimmed samples. |
| `Window.ReferenceIsUnique` | internal/spike/window.go:3-4 | At most one sample qualifies as reference. |
| `Window.PriceWindow.References` | internal/spike/window.go:22-37 | Exactly the latest minimum and latest maximum of all samples ever added that are in the window; nothing exactly when none is. |
| `Window.PriceWindow.Add` | internal/spike/window.go:10-20 | The sample joins the history and both queues stay its records. |
| `Utf8.CompleteIsWhole` | internal/core/jsreq.go:103-128 | A complete byte sequence of the table is the encoding of its bits, a scalar value. |
| `Utf8.InTableBegins` | internal/core/jsreq.go:103-128 | Every byte sequence the table admits begins some character. |
| `Utf8.BeginsInTable` | internal/core/jsreq.go:103-128 | And only those. |
| `Utf8Decoder.RunDecodes` | internal/core/jsreq.go:101-148 | From any state inside a character the machine goes on as the maximal-subpart rule says. |
| `Utf8Decoder.DecodeFollowsRule` | internal/core/jsreq.go:89-148 | On arbitrary bytes: one U+FFFD per maximal invalid subpart, whole characters read. |
| `Utf8Decoder.RuleIsFunctional` | internal/core/jsreq.go:89-92 | The rule determines the answer. |
| `Utf8Decoder.DecodesToScalars` | internal/core/jsreq.go:101-148 | Only Unicode scalar values come out. |
| `Utf8Decoder.RoundTrip` | internal/core/jsreq.go:101-148 | Decoding undoes encoding on every text. |
| `Utf8Decoder.RepairedExactly` | internal/core/jsreq.go:93-95 | The output is always well formed, and equals the input if and only if that was: the fast path agrees. |
| `Utf8Decoder.DistributesExactly` | internal/core/jsreq.go:101-148 | Decoding distributes over concatenation if and only if the first part ends outside a character or the second does not continue it. |
| `Utf8Decoder.IsValid` | internal/core/jsreq.go:93 | The validity test accepts exactly the encodings of texts. |
| `Utf8Decoder.DecodeSlowly` | internal/core/jsreq.go:96-148 | The loop, which may look at a byte twice, terminates with the decoded text. |
| `Utf8Decoder.DecodeUTF8` | internal/core/jsreq.go:92-148 | Fast path and loop give the same function of the input. |
| `Query.OnePassIsUnescape` | internal/core/jsreq.go:57-73 | The two parsers' unescaping agrees on every input. |
| `Query.HexExactly` | internal/core/jsreq.go:75-87 | Hexadecimal digits of either case, and nothing else, are read as their values. |
| `Query.UnescapeExactly` | internal/marketdata/routes_query.go:74-93 | Text is read as r if and only if r is what its pieces mean: a plus is a space, a whole escape its byte, anything else itself, malformed and cut escapes included. |
| `Query.FormRoundTrip` | internal/marketdata/routes_query.go:74-93 | Unescaping undoes the form encoding on all byte strings. |
| `Query.FormHasNoSeparators` | internal/kite/encode.go:26-42 | No separator survives in encoded text. |
| `Query.FormPrints` | internal/kite/encode.go:26-42 | Byte by byte: letters, digits and *-._ kept, the space a plus, the rest upper-case escapes. |
| `Query.ComponentPrints` | internal/kite/encode.go:9-22 | Byte by byte: letters, digits and -_.!~*'() kept, the rest upper-case escapes. |
| `Query.SplitPrinted` | internal/kite/encode.go:45-51 | Splitting printed parameters gives back one segment per pair. |
| `Query.QueryRoundTrip` | internal/marketdata/routes_query.go:48-70 | Parsing printed pairs returns each key's values in order, for the first thousand pairs and no others. |
| `Query.SegmentGives` | internal/marketdata/routes_query.go:56-61 | What one segment gives a key: split at its first "=", all key without one, nothing when empty. |
| `Query.CollectAppends` | internal/marketdata/routes_query.go:53-69 | Segments give their values independently, in order. |
| `Query.ReadsSegments` | internal/marketdata/routes_query.go:48-70 | Of any text exactly the first thousand segments are read, empty ones counted. |
| `Query.ReadWholeExactly` | internal/marketdata/routes_query.go:48-70 | A printed list is read whole, for every key, if and only if it has at most a thousand pairs. |
| `Query.BeyondThousandUnread` | internal/marketdata/routes_query.go:53-66 | A key that the first thousand pairs lack is not found. |
| `Query.LastSegmentUnread` | internal/marketdata/routes_query.go:48-52 | A list of 1001 pairs whose last segment is not read. |
| `Query.UnescapingsAgreeExactly` | internal/core/jsreq.go:55-73 | The unescapings agree if and only if nothing was escaped or the result is valid UTF-8. |
| `Query.ComponentRoundTripExactly` | internal/kite/encode.go:9-22 | decodeQueryComponent undoes EncodeURIComponent if and only if the string is valid UTF-8. |
| `Query.FormComponentRoundTrip` | internal/core/jsreq.go:55-73 | It undoes the form encoding of valid UTF-8 too. |
| `Query.ParseRoundTrip` | internal/core/jsreq.go:26-51 | parseQuery returns each key's values in order when keys and values are valid UTF-8. |
| `QueryLoops.FormEncodeText` | internal/kite/encode.go:26-42 | The encoding loop. |
| `QueryLoops.UnescapeQuery` | internal/marketdata/routes_query.go:74-93 | The two-pass loop with its shortcut computes the unescaping. |
| `QueryLoops.DecodeQueryComponent` | internal/core/jsreq.go:57-73 | The one-pass loop with its shortcut and UTF-8 repair. |
| `QueryLoops.QueryValues` | internal/marketdata/routes_query.go:48-70 | The values of a key in the first thousand segments, in order. |
| `QueryLoops.ParseQuery` | internal/core/jsreq.go:26-51 | The whole table, every key at once; a key without values is absent. |
| `OrderedMap.InsertionOrder` | internal/analytics/js.go:23-25 | After any operations: last value set since the last delete, no key twice, keys in order of their insertions. |
| `OrderedMap.BuryRemoves` | internal/analytics/js.go:52-64 | A tombstone removes exactly its key from the order. |
| `OrderedMap.OMap.constructor` | internal/analytics/js.go:33-35 | An empty map. |
| `OrderedMap.OMap.Bounded` | internal/analytics/js.go:52-80 | The backing array never exceeds the live entries plus max(32, live). |
| `OrderedMap.OMap.Set` | internal/analytics/js.go:43-50 | A present key keeps its place, an absent one goes to the end. |
| `OrderedMap.OMap.Delete` | internal/analytics/js.go:52-64 | The key is gone, the others keep their order, and the bound is kept. |
| `OrderedMap.OMap.CloseUp` | internal/analytics/js.go:66-74 | The compaction loop keeps the live keys in order and re-indexes them. |
| `OrderedMap.OMap.Compact` | internal/analytics/js.go:66-80 | Compaction changes nothing observable and leaves no tombstone. |
| `OrderedMap.OMap.Keys` | internal/analytics/js.go:83-91 | The live keys in insertion order. |
| `OrderedMap.OMap.Values` | internal/analytics/js.go:94-102 | Their values, in the same order. |
| `OrderedMap.OMap.Get` | internal/analytics/js.go:37 | The value held, if any. |

## Left out

- HTTP routes, SSE, CORS, auth, the Kite, Yahoo and token-service clients, PostgreSQL and the key-value client: foreign calls, which appear as outcomes of steps.
- Key lifetimes, the EXPIRE throttle and the failure cooldown: they decide only when a flush may start.
- JSON encoding of buckets and trades, taken as the identity; prices are reals or integers, and floating-point rounding, pricing and margins are not modelled.
- References kept in the write buffer: values are queued by value, since the code re-queues a closed bucket after each in-place edit.
- Futures frames: the open-interest frames with no partial bucket, so nothing new.
- The order of keys, leases and tokens inside one call: sets and maps stand for them, except where order is the point (queues, the ordered map, the yield list).
- A key used both as a hash and as a plain value, which the service never does.
- Store reads that fail during a warm load, and captures and backfills that run between a switch or start and the end of its warm load: DurableMirror takes switch and load as one step.
- DurableMirror.HiddenReturnsExactly: about stamps the backlog cap does not give up meanwhile; a stamp it gives up reads as stored (DurableMirror.LedgerStep).
- What a provider returns to an operation is taken to be data of the broker the operation was begun for.
- Stored buckets that leave retention while no process runs: they stay in the store, and warm loads ignore them.
- Times that go back: frames and the price window are proved for nondecreasing operation times.
- WriteBuffer.Queue.FlushNow: another flush that starts between two attempts and the caller's deadline are not modelled.
- Drains.CaptureQueue.DrainCacheToDB: the loop without interference; interleavings are the state machine of the same module.
- SerialQueue.Serial.Drain: likewise; removal of a listener is not modelled.
- SpikeEngine.TradeDesk.BeginClose: quotes, depth and profit are one flag, and marks on open trades are not modelled.
- LaneBudget.AcquireWithinBudget: runs the yield and the lease as one step; between their two locks other calls may come in.
- Fair Value surfaces, universe building and configuration, spread statistics, slot tables, tick caches, CSV import, collation and shutdown order: easier members than those above.
