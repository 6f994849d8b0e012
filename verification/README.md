# Verification of the live captioning service

This project models the parts of the repository where several pieces of state have to stay in step, and proves what
they are for. `dafny verify dfyconfig.toml` checks all of it.

## What is modelled

**Session runs and the shared scheduler** (Go). Audio chunks of each run go through a queue of four that drops its
oldest entry, are picked round-robin by one scheduler under a limit on provider calls, finish out of order, and are put
back in order by the run's dispatcher loop until a stop has drained everything.
`run_steps.dfy` gives one run as atomic steps of its goroutines, `session_system.dfy` the whole service: registry, runs,
scheduler goroutine, slots, wake channel and workers, interleaved in any way. `run_invariant.dfy` and
`session_invariant.dfy` prove the inductive invariants, `session_drain.dfy` the statements over whole runs: emission in
order, conservation of chunks, no lost wake-up, capacity, one run per session, and that a shutdown's drain ends;
`session_stop.dfy` the same for the stop of one session among others, and `session_fairness.dfy` how often a waiting run
can be passed over. `runner.dfy`, `scheduler.dfy` and `registry.dfy` are the objects themselves with their fields and loops; the runner's
methods are proved equal to uninterrupted sequences of the atomic steps. `sorted_indexes.dfy` and
`rings.dfy` hold the list and cursor helpers.

**The chunker** (Go, `chunker.dfy`). Bytes become 20 ms windows and windows become chunks. The object carries ghost
fields for everything ever pushed and everything cut off, and each method says exactly which bytes and milliseconds a
chunk covers. The cut rules are stated from outside and shown to leave no choice.

**Event delivery** (`emit_client.dfy`, `event_store.dfy`, `delivery.dfy`). The Go emitter's bounded buffers, the web
route's upserts, and the two together over a connection that may lose answers: what is delivered at least once has the
effect of being delivered exactly once.

**The caption cache** (`captions.dfy`). The view keeps exactly the newest 64 chunks it has seen, each with the last
segment per track, whatever the order of arrival.

**Word error rate** (`wer.dfy`). The two-dimensional table and its backtrace, against the minimum over all edit scripts
and the one the backtrace prefers among the cheapest.

**Transcript export** (`text.dfy`, `sentence_splitter.dfy`, `cues.dfy`, `cue_merging.dfy`, `cue_building.dfy`,
`wrapping.dfy`, `srt.dfy`, `export.dfy`). Sentence splitting, splitting of long cues, merging of short ones, what the two
make of any segments, greedy line wrap, SubRip output and the repository's own reader of it, up to a round trip from
segments to the file and back.

**The resampler and framer** of the operator page (`pcm.dfy`), on exact positions.

## Where the code and its comments differ

- `services/pipeline/internal/session/runner.go:278-282` says that anything still queued precedes everything dispatched.
  Queues are popped from the front, so queued indexes are the larger ones; the model follows the code, and the emission
  order still holds.
- `docs/components/ingest.md:92-94` has the chunker extend the current chunk while the queue is full; `enqueue` drops the oldest queued
  chunk at once, and so does the model.
- `apps/web/src/lib/pcm.ts:45` says samples before the cursor can no longer be read. At source rates of 32 kHz and above
  the cursor can lie behind the end of the buffer, dropping then goes wrong and frames depend on how the input was split
  into blocks. `Pcm.BlockIndependentIff` gives the exact condition.
- The chunker is sure to leave less than Max buffered after a cut only when Max is above 980 ms:
  `Chunkers.LeftShorterThanMax`, and `Chunkers.LeavesMax` for every smaller Max.
- Events that are delivered again are absorbed, but a batch the emitter gave up after its 10 s timeout can be committed
  after later ones have been and put an older status back: `EventStore.LateStatusComesBack`, with the exact condition in
  `Delivery.StaleCommitHarmlessIff`.

## Model

| member | source | states |
|---|---|---|
| SortedIndexes.InsertSorted | services/pipeline/internal/session/runner.go:365-371 | the outstanding list stays ascending and gains exactly the new index |
| SortedIndexes.RemoveIndex | services/pipeline/internal/session/runner.go:373-378 | the list stays ascending and loses exactly the index, if it was there |
| SortedIndexes.MinPending | services/pipeline/internal/session/runner.go:380-388 | whatever order the map is scanned in, the answer is its least key, or -1 when empty |
| RunInvariant.EnqueueStepInv | services/pipeline/internal/session/runner.go:194-211 | each atomic step of enqueue keeps the run's order, conservation, tracking and control invariants |
| RunInvariant.PopInv | services/pipeline/internal/session/runner.go:153-163 | moving a chunk from the queue to outstanding keeps them |
| RunInvariant.DeliverInv | services/pipeline/internal/session/scheduler.go:135-136 | a worker delivering its result, out of order or not, keeps them |
| RunInvariant.ReceiveInv | services/pipeline/internal/session/runner.go:273-277 | receiving a result keeps them |
| RunInvariant.LoopStepInv | services/pipeline/internal/session/runner.go:255-290 | each step of the dispatcher's stop flush, drain check and emit loop keeps them |
| RunInvariant.StopWakeInv | services/pipeline/internal/session/runner.go:294-296 | disabling the stop wake-up keeps them, so a stop is never slept through |
| RunInvariant.EmitLowest | services/pipeline/internal/session/runner.go:283-290 | the result the loop emits lies above everything emitted and below everything else still in the run |
| Runners.EnqueueAloneKeepsNewest | services/pipeline/internal/session/runner.go:194-211 | an enqueue nobody interrupts keeps the newest four chunks and logs exactly the one pushed out |
| Runners.EmitAloneReleases | services/pipeline/internal/session/runner.go:283-290 | the emit loop releases, in ascending order, exactly the pending results below the first outstanding one, and none while the queue holds chunks |
| Runners.Runner.Enqueue | services/pipeline/internal/session/runner.go:194-211 | the method's new fields are those of the uninterrupted enqueue steps |
| Runners.Runner.PopQueued | services/pipeline/internal/session/runner.go:153-163 | the oldest queued chunk becomes outstanding; fails only on an empty queue, changing nothing |
| Runners.Runner.BeginStop | services/pipeline/internal/session/runner.go:216-218 | the new fields are those of the stop step |
| Runners.Runner.MinOutstanding | services/pipeline/internal/session/runner.go:173-180 | the first of the outstanding indexes, which is the least of them, or -1 |
| Runners.Runner.ReceiveAndEmit | services/pipeline/internal/session/runner.go:272-290 | the method's new fields are those of receiving one result and running the emit loop |
| Runners.Runner.EmitPending | services/pipeline/internal/session/runner.go:283-290 | the loop's new fields are those of running the emit loop's atomic steps to its end |
| Rings.FirstReadyAt | services/pipeline/internal/session/scheduler.go:121-128 | the first hit of the modular scan is the ready runner nearest to the cursor |
| SessionFairness.TurnComesCloser | services/pipeline/internal/session/scheduler.go:118-130 | in any interleaving every pop for another run brings a waiting run's turn one closer, and no other step moves it away |
| SessionFairness.BoundedBypass | services/pipeline/internal/session/scheduler.go:118-130 | over any trace between changes of the set of n runs, with queues filling and emptying while scans go on, a run whose queue stays non-empty is passed over fewer than n times, by no more than the runs between the cursor and itself when no scan has passed it |
| SessionFairness.ScanAloneTakesFirstReady | services/pipeline/internal/session/scheduler.go:118-130 | the scan's atomic steps, uninterrupted, pop from the ready run nearest to the cursor or find none ready, as the method Take promises |
| SessionFairness.LeaveIsRemove | services/pipeline/internal/session/scheduler.go:53-65 | a run that leaves the service goes from the list as the method Remove promises, with its effect on the cursor |
| Schedulers.Scheduler.Notify | services/pipeline/internal/session/scheduler.go:68-73 | the wake token is set |
| Schedulers.Scheduler.Add | services/pipeline/internal/session/scheduler.go:43-48 | the runner goes to the end of the list and the wake token is set |
| Schedulers.Scheduler.Remove | services/pipeline/internal/session/scheduler.go:53-65 | exactly the runner leaves the list; the cursor moves only when it fell off the end |
| Schedulers.Scheduler.Take | services/pipeline/internal/session/scheduler.go:118-130 | pops the oldest chunk of the ready runner nearest to the cursor, moves the cursor behind it and touches no other runner; fails only when no queue holds work |
| Schedulers.Scheduler.Dispatch | services/pipeline/internal/session/scheduler.go:99-112 | takes a slot exactly when it dispatches; refuses only when all slots are taken or no queue holds work |
| SessionInvariant.StepInv | services/pipeline/internal/session/scheduler.go:84-139 | every atomic step of every goroutine keeps the invariants of all runs, the registry, the scheduler, the slots and the wake channel |
| SessionInvariant.InitInv | services/pipeline/internal/session/registry.go:125-141 | they hold when the service starts |
| SessionInvariant.ScheduleInv | services/pipeline/internal/session/scheduler.go:84-130 | each step of the scheduler goroutine keeps them, including that runners it has scanned past have no work nobody owes it a wake-up for |
| SessionInvariant.MembershipInv | services/pipeline/internal/session/registry.go:167-187 | starting, unregistering and leaving runs and closing the registry (registry.go:258-266) keep them |
| SessionInvariant.SlotInv | services/pipeline/internal/session/scheduler.go:135-139 | delivering, freeing a slot and paying an owed notify keep them |
| SessionDrain.InOrderEmission | services/pipeline/internal/session/runner.go:272-290 | under every interleaving a run's emitted indexes ascend and lie below everything of that run still pending, outstanding, queued or being enqueued |
| SessionDrain.ProducedIsNext | services/pipeline/internal/session/runner.go:117-129 | over any trace a run numbers as many chunks as the trace hands it, by pushes and by the tail that is flushed at its stop (runner.go:258-266) |
| SessionDrain.StoppingIffAsked | services/pipeline/internal/session/runner.go:216-218 | over any trace a run is stopping exactly when it was asked to |
| SessionDrain.Conservation | services/pipeline/internal/session/runner.go:153-211 | under every interleaving the chunks a run was handed, one per push that completes a chunk and the tail of its stop, are numbered without gaps, and each is in exactly one of emitted, dropped, pending, outstanding, queued or being enqueued |
| SessionDrain.IdleAccountsForAll | services/pipeline/internal/session/runner.go:267-270 | once a run has reported idle nothing of it is left anywhere, results channel included, and processed plus dropped is the number of chunks the trace has handed it |
| SessionDrain.CapacityRespected | services/pipeline/internal/session/scheduler.go:99-139 | provider calls in flight over all runs never exceed MaxConcurrency |
| SessionDrain.NoLostWakeup | services/pipeline/internal/session/scheduler.go:67-139 | a parked scheduler without a wake token, with a free slot and queued work, is owed a notify by some goroutine |
| SessionDrain.OneRunPerSession | services/pipeline/internal/session/registry.go:176-187 | no session ever has two runs that are not finished |
| SessionDrain.DrainProgress | services/pipeline/internal/session/runner.go:254-297 | once the registry is closed and all runs left are stopping, every step of the service lowers a measure over queued, working, delivered and pending chunks and the scheduler's scan |
| SessionDrain.NeverStuck | services/pipeline/internal/session/runner.go:254-297 | in the same situation, until every run is done some step other than a heartbeat is possible |
| SessionDrain.DrainIsBounded | services/pipeline/internal/session/runner.go:254-297 | any trace from there on, with heartbeats and further stop requests, is no longer than the measure plus the stop requests plus a fixed number of steps per heartbeat |
| SessionDrain.SnapshotCoversLiveRuns | services/pipeline/internal/session/registry.go:258-269 | once closed, every run still registered is in the snapshot and every other run has drained; so stopping the snapshot stops all that is left |
| SessionDrain.ShutdownReturns | services/pipeline/internal/session/registry.go:258-276 | after any history in which the registry closed and each run of the snapshot was asked to stop, and whatever follows, the drain is bounded per heartbeat, and where the service can take no step of its own every run is done and has emitted or dropped as many chunks as it was ever handed |
| SessionStop.StopIsBounded | services/pipeline/internal/session/runner.go:254-297 | a stopping run, while others start, push and stop in any way, changes no more often than it has work, plus seven times per heartbeat of its own |
| SessionStop.StoppedIsNeverStuck | services/pipeline/internal/session/runner.go:254-297 | until it is done a stopping run has a step of its own, or queued chunks, or waits for the scan that holds the scheduler's lock, and the service can move |
| SessionStop.StopReturns | services/pipeline/internal/session/runner.go:225-228 | from the stop of one session on, in any trace: its run's steps are bounded, and where it neither can step nor waits for the scheduler it is done and has emitted or dropped as many chunks as it was ever handed |
| SessionStop.OnlyTheTailFollows | services/pipeline/internal/session/runner.go:256-266 | after a stop request a run is handed at most one more chunk, the tail, and none once its loop has seen the request |
| Registries.Registry.Check | services/pipeline/internal/session/registry.go:149-157 | an active run answers a start: itself for the same run id, already running for another |
| Registries.Registry.Register | services/pipeline/internal/session/registry.go:176-187 | registers and schedules exactly when the registry is open and the session free; otherwise changes nothing and says which |
| Registries.ValidateLanguages | services/pipeline/internal/session/registry.go:192-202 | answers the source language if the provider's table lacks it, otherwise the first target it lacks, or none if it has all of them |
| Registries.Registry.Start | services/pipeline/internal/session/registry.go:148-188 | a start without interference: idempotent for the same run id, each refusal exactly when its check fails, and the new map |
| Registries.Registry.OnDone | services/pipeline/internal/session/registry.go:167-174 | a finished run leaves the scheduler, and the map unless a later run has its session |
| Registries.Registry.Stop | services/pipeline/internal/session/registry.go:229-238 | asks the session's run to stop exactly when the run id is empty or its own, and no other run; the wait is the subject of SessionStop.StopReturns |
| Registries.Registry.ActiveRunners | services/pipeline/internal/session/registry.go:262-265 | the map's runners, each once, in any order |
| Registries.Registry.Close | services/pipeline/internal/session/registry.go:260-266 | closes the registry with a snapshot of exactly the active runners, so that no later start can register |
| Registries.Registry.Shutdown | services/pipeline/internal/session/registry.go:258-269 | once: closes, and asks exactly the active runs to stop; later calls do nothing |
| Chunkers.Clock.Advance | services/pipeline/internal/chunk/frame.go:30-34 | positions are the floor of the exact sample time, so the clock never drifts |
| Chunkers.Clock.NextFrame | services/pipeline/internal/chunk/frame.go:38-41 | the same for a frame of bytes, two to a sample |
| Chunkers.ClassifyInSteps | services/pipeline/internal/chunk/chunker.go:78-85 | classifying the windows of a stream in steps gives the windows of the whole stream |
| Chunkers.DetectorInOrder | services/pipeline/internal/chunk/chunker.go:80-85 | the voice detector sees each whole window of the stream once, in order, with the state the window before left |
| Chunkers.Chunker.WindowsOfStream | services/pipeline/internal/chunk/chunker.go:78-87 | without a mid-run flush the windows and the noise floor are those of the stream, however it was framed |
| Chunkers.CutIsUnique | services/pipeline/internal/chunk/chunker.go:105-152 | the cut rules stated from outside allow exactly one decision |
| Chunkers.LeftShorterThanMax | services/pipeline/internal/chunk/chunker.go:105-152 | with Max above 980 ms what a cut leaves buffered is shorter than Max |
| Chunkers.LeftMayReachSmallMax | services/pipeline/internal/chunk/chunker.go:139-152 | for every Max up to 980 ms there are windows after whose cut at least Max stays buffered |
| Chunkers.LeavesMax | services/pipeline/internal/chunk/chunker.go:78-87 | and a second of audio, pushed into a new chunker, that leaves them |
| Chunkers.Chunker.Push | services/pipeline/internal/chunk/chunker.go:78-125 | no byte is lost, the cut is the one the rules give, it is emitted exactly when at least 5 % of its windows are speech, always if all are and never if none is, and a chunk's bytes are exactly stream[32*startMs..32*endMs] as long as no mid-run flush fired and, with Max above 980 ms, shorter than Max plus the frame plus one window; indexes are dense |
| Chunkers.Chunker.Evaluate | services/pipeline/internal/chunk/chunker.go:105-125 | the branches decide what the rules stated from outside say: a pause cut needs Min, follows a speech window and leaves only silence; a Max cut follows the latest quietest window of the last second |
| Chunkers.Chunker.TrailingSilenceMs | services/pipeline/internal/chunk/chunker.go:128-134 | the length of the maximal silent run at the end |
| Chunkers.Chunker.MaxCutMs | services/pipeline/internal/chunk/chunker.go:139-152 | the end of the latest of the lowest-energy windows of the last second |
| Chunkers.Chunker.Cut | services/pipeline/internal/chunk/chunker.go:157-164 | the first windows and their bytes leave the buffer and time advances by their length |
| Chunkers.Chunker.EnoughSpeech | services/pipeline/internal/chunk/chunker.go:181-192 | at least one window, and twenty times the number of speech windows is at least the number of windows |
| Chunkers.SpeechDecides | services/pipeline/internal/chunk/chunker.go:181-192 | pure speech always passes the test and silence never does |
| Chunkers.Chunker.Finish | services/pipeline/internal/chunk/chunker.go:169-177 | time advances for discarded chunks too, the index only for emitted ones |
| Chunkers.Chunker.Flush | services/pipeline/internal/chunk/chunker.go:91-100 | below Min nothing changes; otherwise the whole tail is consumed, and time lags the bytes by at most 31 more |
| EmitClient.Client.Enqueue | services/pipeline/internal/emit/emit.go:136-161 | below bufferMax nothing goes; an overflow leaves bufferMax events: the newest bufferMax - 2, an error entry whose message holds the number of events dropped, and the new one |
| EmitClient.EnqueuedKeepsNewest | services/pipeline/internal/emit/emit.go:136-161 | the same of the value the method stores, for every queue and bound |
| EmitClient.Client.Take | services/pipeline/internal/emit/emit.go:191-213 | for any map order: per session a prefix of its queue, at most n events, none left behind unless full, and no session more than one ahead of one that has events left |
| EmitClient.Client.Pass | services/pipeline/internal/emit/emit.go:197-207 | one pass takes at most one event per session, from every session unless the batch is full |
| EmitClient.Client.Restore | services/pipeline/internal/emit/emit.go:265-280 | a failed batch goes back in front of its sessions' queues, which keep all of it or exactly the newest bufferMax events |
| EmitClient.RestoredIsTail | services/pipeline/internal/emit/emit.go:265-280 | whatever was queued meanwhile, a restore lets go of the oldest events only and only of as many as the bound demands |
| EmitClient.RestoreUndoesTake | services/pipeline/internal/emit/emit.go:191-280 | restoring a batch straight after taking it gives back the original queues |
| EventStore.Store.Post | apps/web/src/app/api/internal/events/route.ts:55-120 | the loop applies the whole batch in order, inserting exactly its log entries in order, or nothing when a statement violates a foreign key |
| EventStore.LogsAreAppended | apps/web/src/app/api/internal/events/route.ts:103-111 | a batch appends a row for each of its log events, in order, and changes no earlier row |
| EventStore.LogsOfIsExact | apps/web/src/app/api/internal/events/route.ts:103-111 | those are all log events of the batch, as often as they occur, and nothing else |
| EventStore.LastRowWins | apps/web/src/app/api/internal/events/route.ts:57-92 | after a batch the row of a segment key is that of the last event for the key |
| EventStore.OtherRowsStay | apps/web/src/app/api/internal/events/route.ts:57-92 | a key no event is for keeps its row, or stays without one |
| EventStore.LastStatusWins | apps/web/src/app/api/internal/events/route.ts:93-102 | a session's status and current run are those of its last status event |
| EventStore.LastErrorWins | apps/web/src/app/api/internal/events/route.ts:93-118 | its last error is that of its last status event or error log entry, whichever came later |
| EventStore.OtherSessionsStay | apps/web/src/app/api/internal/events/route.ts:93-118 | a session without status events and error log entries keeps its row |
| EventStore.OnIsExact | apps/web/src/app/api/internal/events/route.ts:55-56 | a session's share of a batch leaves out none of its events and adds and repeats none |
| EventStore.ViewOfBatch | apps/web/src/app/api/internal/events/route.ts:55-120 | what a batch does to one session's segments and status fields is what its own events do, in order |
| EventStore.SeeAllIsOverwrite | apps/web/src/app/api/internal/events/route.ts:72-117 | any list of events acts as one overwrite by the last row per key and the last value per field |
| EventStore.ReplayIsAbsorbed | apps/web/src/app/api/internal/events/route.ts:72-102 | delivering a prefix early and then everything again equals delivering everything once |
| EventStore.LateCommitHarmlessIff | apps/web/src/app/api/internal/events/route.ts:55-120 | a batch committed once more out of turn does no harm in the end exactly when each of its net writes is written again by what follows or is already there |
| EventStore.LateStatusComesBack | apps/web/src/app/api/internal/events/route.ts:93-102 | otherwise it can: a run that reported idle shows as running again |
| Delivery.OrderAndBound | services/pipeline/internal/emit/emit.go:136-280 | over every run: acknowledged, in flight and queued form an ordered subsequence of what was appended, all of it without overflow, and no queue exceeds its bound |
| Delivery.AppendLosesOldest | services/pipeline/internal/emit/emit.go:136-161 | an append lets go of exactly the oldest queued events of its session that the bound demands, none below it, and touches nothing acknowledged, in flight or of other sessions |
| Delivery.RestoreLosesOldest | services/pipeline/internal/emit/emit.go:265-280 | after a failed post each session has all of the batch's and the queued events, or the newest bufferMax of them |
| Delivery.StepOrder | services/pipeline/internal/emit/emit.go:136-280 | each append, take, acknowledgement, lost answer and refusal keeps that order and bound |
| Delivery.StepStore | services/pipeline/internal/emit/emit.go:235-261 | each append, take, acknowledgement, lost answer, refusal and late commit keeps the store able to catch up with the session's history, as long as no batch was committed after later acknowledgements of the session |
| Delivery.AtLeastOnceIsExactlyOnce | services/pipeline/internal/emit/emit.go:235-280 | once a session has drained without overflow, its segments and status fields are as if each event had been applied once in order, whatever was lost, retried, or committed after the emitter gave up, unless such a commit came after later acknowledgements |
| Delivery.StaleCommitHarmlessIff | services/pipeline/internal/emit/emit.go:73-80 | exactly when a commit that came too late still leaves the session right |
| Captions.NewestIsUnique | apps/web/src/lib/captions.ts:49-55 | there is only one set of newest 64 indexes |
| Captions.UpsertKeepsCache | apps/web/src/lib/captions.ts:31-55 | one upsert with its eviction keeps the map the newest-64 cache of everything seen |
| Captions.ArrivalOrderIrrelevant | apps/web/src/lib/captions.ts:31-91 | two caches that saw the same segments, write-consistent duplicates included, are equal |
| Captions.EntryHoldsLast | apps/web/src/lib/captions.ts:31-47 | an entry's slot for a track holds the last segment that was written to it |
| Captions.EvictOldest | apps/web/src/lib/captions.ts:49-55 | exactly the 64 largest keys stay, with their entries unchanged |
| Captions.UpsertSegment | apps/web/src/lib/captions.ts:31-47 | the entry gains the segment in its track and the map is evicted |
| Captions.MergeSegments | apps/web/src/lib/captions.ts:80-91 | the loop upserts the segments of the shown run and skips the others; if all are of that run the result is that of receiving them one by one |
| Captions.MergeIsArrivals | apps/web/src/lib/captions.ts:80-91 | a backfill of the run shown leaves exactly the view that receiving its segments one by one leaves |
| Captions.MergeIgnoresOthers | apps/web/src/lib/captions.ts:84-87 | with a run shown a segment of another run anywhere in a backfill changes nothing |
| Captions.MergeIntoNothing | apps/web/src/lib/captions.ts:84-90 | a view without a run takes that of the first segment, and stays as it is when there is none |
| Captions.CacheIsKept | apps/web/src/lib/captions.ts:93-129 | from any state that is the cache of a history, after any actions the view is the cache of what it has taken in since its run began |
| Captions.TakenIsOfTheRun | apps/web/src/lib/captions.ts:99-125 | what was taken in belongs to the run shown, except for the segments the view started with, of which none is left after a restart |
| Captions.OfRunIsExact | apps/web/src/lib/captions.ts:86-89 | of a backfill's segments exactly those of the run are taken in, as often as they occur |
| Captions.StatusIsLatest | apps/web/src/lib/captions.ts:115-125 | the status shown is that of the last status event, or the one the view started with |
| Captions.RestartedIffChanged | apps/web/src/lib/captions.ts:99-123 | the view is flagged as restarted exactly when it was from the start or some action changed the run it showed |
| Captions.ViewIsNewestCache | apps/web/src/lib/captions.ts:58-129 | every view, rendered with any segments and status and fed any actions, holds the newest 64 chunks of what it has taken in, each with the last segment per track |
| Captions.SameSegmentsSameView | apps/web/src/lib/captions.ts:58-129 | views that took in the same segments, rendered or live, show the same chunks |
| Captions.CreateCaptionsState | apps/web/src/lib/captions.ts:58-73 | the loop upserts every rendered segment and shows the first one's run |
| Captions.CreatedIsNewestCache | apps/web/src/lib/captions.ts:58-73 | the server-rendered start is the newest-64 cache of its segments |
| Wer.DistanceIsLowerBound | scripts/wer.mjs:36-48 | no edit script from reference to hypothesis is cheaper than the table's corner |
| Wer.ScriptBalances | scripts/wer.mjs:49-70 | reference minus deletions equals hypothesis minus insertions for every script |
| Wer.Align | scripts/wer.mjs:36-70 | the counts are those of an actual edit script, their sum is the corner and the minimum over all scripts, and that script comes, read from its end, before every other cheapest one, with match and substitution before deletion before insertion |
| Wer.FillTable | scripts/wer.mjs:37-48 | every cell holds the distance of the two prefixes |
| Wer.Backtrace | scripts/wer.mjs:49-70 | the walk stays in bounds and ends, and its counts are those of the preferred script |
| Wer.PreferredIsChosen | scripts/wer.mjs:49-70 | the script found by preferring match and substitution over deletion over insertion is cheapest and comes before every other cheapest script, read from the end |
| Wer.ChosenIsUnique | scripts/wer.mjs:49-70 | only one script does, so the two texts determine the three counts |
| Text.TokensOf | apps/web/src/server/export/cues.ts:144 | splitting at white space gives the words, with an empty token where the text starts or ends with white space |
| Text.WordsConcat | apps/web/src/server/export/cues.ts:44-50 | cutting a text next to white space keeps its words |
| Text.WordsOfTrim | apps/web/src/server/export/cues.ts:126 | trim keeps the words |
| SentenceSplitter.GreedyMatchIsLongest | apps/web/src/server/export/cues.ts:39 | the boundary pattern matches at a position exactly when its greedy run does, which is the longest match |
| SentenceSplitter.SplitSentences | apps/web/src/server/export/cues.ts:41-51 | the loop over all matches yields the trimmed, non-empty pieces between boundaries |
| SentenceSplitter.SentencesKeepWords | apps/web/src/server/export/cues.ts:41-51 | splitting keeps the word sequence |
| SentenceSplitter.CutExactlyAtSentences | apps/web/src/server/export/cues.ts:36-51 | parts are trimmed and not empty, cannot be split further, and all but the last end with a terminator and perhaps closers |
| Cues.SplitLongCue | apps/web/src/server/export/cues.ts:58-78 | the loop yields the cue itself or its parts between rounded borders |
| Cues.OnlyLongSentencesStayLong | apps/web/src/server/export/cues.ts:53-61 | after splitting, whatever is longer than 7 s is a single sentence; no cue of at most 7 s is cut |
| Cues.LongCueIsTiled | apps/web/src/server/export/cues.ts:58-78 | the pieces fill the cue from start to end without gap or overlap, despite rounding, with its words |
| Cues.CutsAreProportional | apps/web/src/server/export/cues.ts:63-74 | the pieces of a split cue are its sentences, and each cut lies within half a millisecond of the share its characters have |
| CueMerging.MergeShortCues | apps/web/src/server/export/cues.ts:84-115 | the loop joins consecutive groups: the shortest that last 800 ms, a short rest going to the last group |
| CueMerging.MergeGroupsCoverAll | apps/web/src/server/export/cues.ts:84-115 | every cue goes into exactly one group, in order |
| CueMerging.NothingMergedNeedlessly | apps/web/src/server/export/cues.ts:96-100 | every group but the last ends as soon as it lasts long enough |
| CueMerging.MergedIsOrderedAndLong | apps/web/src/server/export/cues.ts:80-115 | on cues in time order the result is in time order, each cue at least 800 ms unless it is the only one, same words |
| CueMerging.CuesAreOrderedLongAndComplete | apps/web/src/server/export/cues.ts:121-130 | ordered, non-overlapping segments become ordered, non-overlapping cues, each at least 800 ms unless it is the only one, with exactly the words of the segments; which cues these are is the subject of CueBuilding |
| CueMerging.CuesKeepSpan | apps/web/src/server/export/cues.ts:121-130 | the cues span the time from the first non-blank segment's start to the last one's end |
| CueBuilding.PiecesArePieces | apps/web/src/server/export/cues.ts:58-78 | a blank segment has no pieces, one of at most 7 s or of one sentence is its own piece with its text trimmed; otherwise the pieces are its sentences, tiling it, each cut the nearest millisecond to its share of the characters |
| CueBuilding.MergeGroupsAreGrouping | apps/web/src/server/export/cues.ts:84-115 | the merged groups follow the rules: a group closes with the first cue that makes it 800 ms long, and a rest that falls short joins the last group |
| CueBuilding.GroupingIsUnique | apps/web/src/server/export/cues.ts:84-115 | the rules leave no choice: any grouping of the cues that follows them is the one merging makes |
| CueBuilding.BuiltFromPieces | apps/web/src/server/export/cues.ts:121-130 | whatever the segments, the cues are the pieces of all of them in order, grouped by the rules and each group joined |
| CueBuilding.OneSegment | apps/web/src/server/export/cues.ts:121-130 | the cues of a single segment are its pieces, so a long one becomes its sentences, provided that each has a share of at least 801 ms if it is cut at all |
| CueBuilding.NoneTouchesAnother | apps/web/src/server/export/cues.ts:121-130 | when no segment has a short piece the cues of several are those of each, one after the other |
| CueBuilding.AppendedIff | apps/web/src/server/export/cues.ts:121-130 | for ordered segments, what follows leaves the cues so far as they are and adds its own exactly when no piece so far was left over too short; among what follows some non-blank segment lasts 800 ms |
| CueBuilding.NothingShortBehind | apps/web/src/server/export/cues.ts:121-130 | nothing is left over behind a segment that lasts 800 ms, or is cut and whose last sentence has a share of 801 ms |
| CueBuilding.SegmentAppended | apps/web/src/server/export/cues.ts:121-130 | so appending a segment of at least 800 ms behind such a one leaves all earlier cues as they are |
| CueBuilding.ShortSegmentMovesOn | apps/web/src/server/export/cues.ts:108-114 | that all cues so far last 800 ms is not enough: a short last segment moves from the cue before it to the one behind it |
| Wrapping.WrapCueText | apps/web/src/server/export/cues.ts:137-162 | the loop yields the greedy lines of the words, folded to the limit, and the limit only takes line breaks out |
| Wrapping.GreedyIsBreaking | apps/web/src/server/export/cues.ts:142-154 | the greedy lines break exactly the words, and each fits or is one word |
| Wrapping.GreedyStaysAhead | apps/web/src/server/export/cues.ts:142-154 | at every word the greedy wrap is ahead of any other way of breaking the words |
| Wrapping.WrapIsOptimal | apps/web/src/server/export/cues.ts:142-154 | before the limit, no other way of breaking the words into lines that fit, or are one word, needs fewer lines |
| Wrapping.LinesAreFull | apps/web/src/server/export/cues.ts:147-152 | no line has room for the first word of the next one |
| Wrapping.OnlyGreedyIsFull | apps/web/src/server/export/cues.ts:142-154 | there is no other way of breaking the words into lines that fit, or are one word, and leave no such room |
| Wrapping.LinesFit | apps/web/src/server/export/cues.ts:142-154 | each line before the limit is at most the width or a single word |
| Wrapping.WrapKeepsWords | apps/web/src/server/export/cues.ts:137-162 | for any width and limit the word sequence is unchanged |
| Wrapping.Folded | apps/web/src/server/export/cues.ts:155-161 | lines within the limit stay; more become exactly maxLines lines, all but the last of which are the first ones of the wrap |
| Wrapping.FoldingKeepsText | apps/web/src/server/export/cues.ts:155-161 | the folded lines, joined by spaces, are the wrapped ones joined by spaces |
| Srt.TimestampRoundTrip | apps/web/src/server/export/cues.ts:22-28 | below a hundred hours a printed timestamp reads back as the time, in twelve characters |
| Srt.StampRoundTrip | apps/web/src/server/export/srt.ts:8 | the line with both times reads back as both |
| Srt.ReadableIff | scripts/smoke.mjs:335-338 | the reader accepts a block's times exactly when both are below a hundred hours |
| Srt.SplitOfJoin | scripts/smoke.mjs:331-342 | splitting at line breaks or blank lines undoes joining lines or blocks that hold none |
| Srt.BlockRoundTrip | apps/web/src/server/export/srt.ts:6-9 | a block reads back as the cue's number, times and words |
| Srt.SrtRoundTrip | apps/web/src/server/export/srt.ts:4-11 | for cues with trimmed, non-empty text and times below a hundred hours the reader finds exactly one block per cue, with its number, both times and its words |
| Export.BuiltCuesArePrintable | apps/web/src/server/export/cues.ts:121-130 | built cues have trimmed, non-empty text and stay in the range of times of the segments |
| Export.ExportRoundTrip | scripts/smoke.mjs:331-343 | exporting ordered segments and reading the file back: all blocks well formed, numbered, in time order, at least 800 ms each when there are several, with the words of the segments |
| Export.AllForwardIff | scripts/smoke.mjs:344-346 | every block starts before it ends, as the export check wants, exactly when the first non-blank segment starts before the last one ends, or there is none |
| Text.NumberOfDecimal | apps/web/src/server/export/srt.ts:8 | a cue's printed number determines the number |
| Pcm.PcmFramer.Push | apps/web/src/lib/pcm.ts:27-52 | the loop emits the frames that are ready and drops what lies before the cursor |
| Pcm.PcmFramer.EmitFrame | apps/web/src/lib/pcm.ts:54-79 | a frame is 3200 clamped, interpolated samples from the cursor on, which then moves by a frame |
| Pcm.ReadsAreInBuffer | apps/web/src/lib/pcm.ts:35-43 | a frame that is ready reads only samples the buffer holds: the left one of each position, and the right one wherever the position lies between two |
| Pcm.PushesFollowTheStream | apps/web/src/lib/pcm.ts:27-52 | below 32 kHz, pushes in any blocks give the frames of the stream, computed from the stream alone |
| Pcm.SampleOfStream | apps/web/src/lib/pcm.ts:54-67 | below 32 kHz, however the input was split, sample i of frame k is the 16-bit value nearest to the clamped stream at position (3200 k + i) * rate / 16000, on the line between its two neighbours there |
| Pcm.TargetRateIsKept | apps/web/src/lib/pcm.ts:54-67 | at 16 kHz the stream is only cut into frames: as many as are full, and each sample is that of the stream |
| Pcm.BetweenInProportion | apps/web/src/lib/pcm.ts:59-62 | between two samples within full scale the value lies between them, as far from the first as the fraction says |
| Pcm.ToInt16IsNearest | apps/web/src/lib/pcm.ts:63-64 | a sample within full scale becomes the nearest 16-bit value, halves up, full scale being 32767 above zero and 32768 below |
| Pcm.FastSourcesAreNot | apps/web/src/lib/pcm.ts:45-50 | at 32 kHz and above two pushes and one push of the same samples disagree |
| Pcm.BlockIndependentIff | apps/web/src/lib/pcm.ts:27-52 | frames are independent of block boundaries exactly when the source rate is below 32 kHz |

## Left out

- Provider calls return: a worker's call is one step with no result other than its chunk index. Transcripts, translations,
  glossaries and provider failures are not part of this model.
- Push and the enqueue it leads to are one step with respect to stop, and one goroutine at a time enqueues for a run; a
  push that races with stop after its check (`services/pipeline/internal/session/runner.go:117-129`) is not covered. Which
  pushes complete a chunk, and whether a stop flushes a tail, is any choice here; `chunker.dfy` says which it is.
- SessionStop.StopReturns: that a non-empty queue is served is not a bound on time; SessionFairness.BoundedBypass limits how
  often it is passed over, and SessionStop.StoppedIsNeverStuck says that the service can move meanwhile.
- Tickers, backoff durations, latencies, stall warnings and the context cancellation that ends the scheduler goroutine.
- Registries.Registry.Start: whether the source can be built is an input; concurrent starts are covered by Register and by
  the state machine, not by this method.
- SessionFairness.BoundedBypass: stated between membership changes, since removing a runner does not shift the cursor.
- Chunkers: the voice detector is an arbitrary function of its floor and a window's bytes; the 5 % test is taken as
  20 * speech >= n, without floating-point rounding; Max is above 0, as the service configuration demands.
- EmitClient: bufferMax is at least 2 (one slot for the drop notice) and one goroutine drains. The concurrent Flush and the
  emission times are not part of this model.
- Delivery.AtLeastOnceIsExactlyOnce: log rows are inserted again on redelivery and therefore excluded, as are row ids and
  the columns the store sets from its clock (updatedAt, createdAt).
- EventStore: request parsing, publishing to subscribers after the commit and the watchdog. A foreign-key violation
  refuses the whole batch.
- Captions: entries are values; the code mutates an entry it shares with the previous map. Ordering for display and the
  choice of language are left out.
- Wer: reading and normalising the texts.
- Srt.SrtRoundTrip: times are not negative and below a hundred hours; from there on the hours take three digits, which the
  reader's pattern does not accept (`Srt.ReadableIff`).
- Cues: numbers are exact, so Math.round is rounding of exact quotients. Strings are sequences of code units.
- Pcm: source rates are whole hertz, positions exact fractions and samples real numbers; the level meter and the byte
  order of the frames are left out.
- WebVTT and plain-text export, HTTP, WebSocket, ffmpeg, the database schema beyond the keys used, tokens, cookies and
  configuration.
