/**
 * One run of a session as a state machine: the bounded chunk queue, the chunks
 * handed to workers, the results on their way back, and the dispatcher loop of
 * services/pipeline/internal/session/runner.go that puts them back in order.
 * A chunk and its provider result are named by the chunk's index.
 *
 * Each function below is one atomic step of one goroutine, so any interleaving of
 * producer, scheduler, workers and dispatcher is a sequence of these steps.
 */
module RunSteps {
  import opened SortedIndexes

  const QUEUE_SIZE: nat := 4

  /** Where the goroutine that is enqueueing stands inside `enqueue`. */
  datatype EnqueuePc = Idle | TrySend(ch: nat) | DropOldest(ch: nat) | Send(ch: nat) | OwesNotify
  {
    predicate Holds() { TrySend? || DropOldest? || Send? }
  }

  /** Where the dispatcher goroutine stands inside `run`. */
  datatype LoopPc =
    | Top               // before `if r.stopping()`
    | Flushing          // the stop flush is enqueueing the tail
    | CheckQueue        // len(r.queue) == 0 ?
    | CheckOutstanding  // r.outstandingLen() == 0 ?
    | CheckPending      // len(pending) == 0 ?
    | Waiting           // in the select
    | Emitting          // head of the emit loop
    | EmitCheck         // len(pending) > 0 && len(r.queue) == 0 held; r.minOutstanding() is next
    | Exiting           // "idle" was reported; onDone deletes the run from the registry next
    | Leaving           // onDone removes the runner from the scheduler next
    | Done

  datatype Run = Run(
    next: nat,              // index of the next chunk the chunker emits
    queue: seq<nat>,
    enq: EnqueuePc,
    outstanding: seq<nat>,
    working: set<nat>,      // chunks inside provider calls
    results: seq<nat>,      // the buffered results channel
    pending: set<nat>,
    emitted: seq<nat>,
    dropped: seq<nat>,
    stopping: bool,
    stopWake: bool,         // the select still listens to stopCh
    flushed: bool,
    loop: LoopPc)

  const NewRun: Run := Run(0, [], Idle, [], {}, [], {}, [], [], false, true, false, Top)

  // ---------------------------------------------------------------- producer

  /** Push or Flush found the run not stopping and the chunker completed a chunk. */
  function StartEnqueue(r: Run): Run {
    r.(enq := TrySend(r.next), next := r.next + 1)
  }

  predicate EnqueueEnabled(r: Run) {
    r.enq.Holds() && (r.enq.Send? ==> |r.queue| < QUEUE_SIZE)
  }

  function EnqueueStep(r: Run): Run
    requires EnqueueEnabled(r)
  {
    match r.enq
    case TrySend(ch) =>
      if |r.queue| < QUEUE_SIZE then r.(queue := r.queue + [ch], enq := OwesNotify)
      else r.(enq := DropOldest(ch))
    case DropOldest(ch) =>
      if r.queue != [] then r.(dropped := r.dropped + [r.queue[0]], queue := r.queue[1..], enq := Send(ch))
      else r.(enq := Send(ch))
    case Send(ch) => r.(queue := r.queue + [ch], enq := OwesNotify)
  }

  function BeginStop(r: Run): Run { r.(stopping := true) }

  // ---------------------------------------------------- scheduler and workers

  /** popQueued: the pop and the outstanding record are one critical section. */
  function Pop(r: Run): Run
    requires r.queue != []
  {
    r.(queue := r.queue[1..],
       outstanding := InsertSorted(r.outstanding, r.queue[0]),
       working := r.working + {r.queue[0]})
  }

  function Deliver(r: Run, ch: nat): Run {
    r.(working := r.working - {ch}, results := r.results + [ch])
  }

  // -------------------------------------------------------------- dispatcher

  predicate LoopEnabled(r: Run) {
    match r.loop
    case Top => r.stopping && !r.flushed ==> r.enq.Idle?
    case Flushing => r.enq.Idle?
    case Waiting => false
    case EmitCheck => r.pending != {}
    case Exiting => false
    case Leaving => false
    case Done => false
    case _ => true
  }

  /** One step of `run`; `tail` says whether the stop flush finds a chunk to emit. */
  ghost function LoopStep(r: Run, tail: bool): Run
    requires LoopEnabled(r)
  {
    match r.loop
    case Top =>
      if !r.stopping then r.(loop := Waiting)
      else if r.flushed then r.(loop := CheckQueue)
      else
        var r' := r.(flushed := true, loop := Flushing);
        if tail then StartEnqueue(r') else r'
    case Flushing => r.(loop := CheckQueue)
    case CheckQueue => r.(loop := if r.queue == [] then CheckOutstanding else Waiting)
    case CheckOutstanding => r.(loop := if r.outstanding == [] then CheckPending else Waiting)
    case CheckPending => r.(loop := if r.pending == {} then Exiting else Waiting)
    case Emitting => r.(loop := if r.pending != {} && r.queue == [] then EmitCheck else Top)
    case EmitCheck =>
      var lowest := Lowest(r.pending);
      if r.outstanding != [] && r.outstanding[0] < lowest then r.(loop := Top)
      else r.(emitted := r.emitted + [lowest], pending := r.pending - {lowest}, loop := Emitting)
  }

  predicate ReceiveEnabled(r: Run) { r.loop.Waiting? && r.results != [] }

  /** `case res := <-r.results`, up to the head of the emit loop. */
  function Receive(r: Run): Run
    requires ReceiveEnabled(r)
  {
    r.(results := r.results[1..],
       outstanding := RemoveIndex(r.outstanding, r.results[0]),
       pending := r.pending + {r.results[0]},
       loop := Emitting)
  }

  predicate StopWakeEnabled(r: Run) { r.loop.Waiting? && r.stopWake && r.stopping }

  function StopWake(r: Run): Run { r.(stopWake := false, loop := Top) }

  function Heartbeat(r: Run): Run { r.(loop := Top) }
}
