/** What every step of a run keeps: order, conservation, and what the dispatcher may conclude. */
module RunInvariant {
  import opened SortedIndexes
  import opened RunSteps

  ghost predicate AllBelow(s: seq<nat>, bound: nat) {
    forall x | x in s :: x < bound
  }

  ghost predicate SeqBelow(s: seq<nat>, t: seq<nat>) {
    forall x, y | x in s && y in t :: x < y
  }

  ghost predicate Distinct(s: seq<nat>) {
    forall i, j | 0 <= i < j < |s| :: s[i] != s[j]
  }

  /** The chunk the enqueueing goroutine has in its hands, if any. */
  function Held(r: Run): (h: set<nat>)
    ensures forall x :: x in h <==> r.enq.Holds() && x == r.enq.ch
    ensures |h| == if r.enq.Holds() then 1 else 0
  {
    if r.enq.Holds() then {r.enq.ch} else {}
  }

  /**
   * Emission order. Emitted indexes ascend and lie below everything still pending, outstanding,
   * queued or being enqueued; dispatched indexes lie below queued ones, because pops are FIFO.
   */
  ghost predicate Ordered(r: Run) {
    && Ascending(r.emitted) && Ascending(r.outstanding) && Ascending(r.queue) && Ascending(r.dropped)
    && SeqBelow(r.emitted, r.outstanding) && SeqBelow(r.emitted, r.queue)
    && SeqBelow(r.outstanding, r.queue) && SeqBelow(r.dropped, r.queue)
    && (forall p | p in r.pending :: AllBelow(r.emitted, p) && forall x | x in r.queue :: p < x)
    && Bounded(r, r.next)
    && (r.enq.Holds() ==> r.enq.ch < r.next && Bounded(r, r.enq.ch))
  }

  ghost predicate Bounded(r: Run, bound: nat) {
    && AllBelow(r.emitted, bound) && AllBelow(r.outstanding, bound) && AllBelow(r.queue, bound)
    && AllBelow(r.dropped, bound) && forall p | p in r.pending :: p < bound
  }

  /** Every produced index is somewhere, nothing else is, and no index is in two places. */
  ghost predicate Conserved(r: Run) {
    && (forall i: nat :: i < r.next <==>
          i in r.emitted || i in r.dropped || i in r.pending || i in r.outstanding || i in r.queue || i in Held(r))
    && (forall p | p in r.pending :: p !in r.outstanding && p !in r.dropped)
    && (forall d | d in r.dropped :: d !in r.emitted && d !in r.outstanding)
    && |r.emitted| + |r.dropped| + |r.pending| + |r.outstanding| + |r.queue| + |Held(r)| == r.next
  }

  /** Outstanding is exactly the chunks inside workers and in the results channel. */
  ghost predicate Tracked(r: Run) {
    && Distinct(r.results)
    && (forall i :: i in r.outstanding <==> i in r.working || i in r.results)
    && (forall i | i in r.results :: i !in r.working)
  }

  /** Nothing is left for the dispatcher or anyone else to do. */
  predicate Drained(r: Run) {
    r.queue == [] && r.outstanding == [] && r.pending == {} && r.enq.Idle?
  }

  ghost predicate Control(r: Run) {
    && |r.queue| <= QUEUE_SIZE
    && (r.enq.Send? ==> |r.queue| < QUEUE_SIZE)
    && (r.flushed ==> r.stopping)
    && (r.loop in {Flushing, CheckQueue, CheckOutstanding, CheckPending, Exiting, Leaving, Done} ==> r.flushed)
    && (r.flushed && !r.loop.Flushing? ==> r.enq.Idle?)
    && (r.loop in {CheckOutstanding, CheckPending} ==> r.queue == [])
    && (r.loop.CheckPending? ==> r.outstanding == [])
    && (r.loop in {Exiting, Leaving, Done} ==> Drained(r))
    && (r.loop.EmitCheck? ==> r.pending != {})
    // A finished result never waits for nobody: some earlier step still has to come.
    && (r.pending != {} ==> r.queue != [] || r.outstanding != [] || r.enq.Holds() || r.loop in {Emitting, EmitCheck})
    // A stop request is never slept through.
    && (!r.stopWake ==> r.stopping && (r.flushed || r.loop.Top?))
    && (r.flushed && r.loop.Waiting? ==> r.queue != [] || r.outstanding != [])
  }

  ghost predicate Inv(r: Run) {
    Ordered(r) && Conserved(r) && Tracked(r) && Control(r)
  }

  lemma NewRunInv()
    ensures Inv(NewRun)
  {
  }

  lemma StartEnqueueInv(r: Run)
    requires Inv(r) && r.enq.Idle?
    requires !r.stopping || (r.loop.Flushing? && r.flushed)
    ensures Inv(StartEnqueue(r))
  {
    var r' := StartEnqueue(r);
  }

  lemma EnqueueStepOrdered(r: Run)
    requires Inv(r) && EnqueueEnabled(r)
    ensures Ordered(EnqueueStep(r))
  {
    EnqueueStepLists(r);
    match r.enq {
      case TrySend(ch) => assert AllBelow(EnqueueStep(r).queue, r.next);
      case DropOldest(ch) => assert AllBelow(EnqueueStep(r).dropped, ch);
      case Send(ch) => assert AllBelow(EnqueueStep(r).queue, r.next);
    }
  }

  lemma EnqueueStepLists(r: Run)
    requires Inv(r) && EnqueueEnabled(r)
    ensures r.enq.TrySend? || r.enq.Send? ==>
      && Ascending(r.queue + [r.enq.ch])
      && forall y :: y in r.queue + [r.enq.ch] <==> y in r.queue || y == r.enq.ch
    ensures r.enq.DropOldest? && r.queue != [] ==>
      && r.queue[0] in r.queue
      && Ascending(r.queue[1..])
      && (forall y :: y in r.queue <==> y == r.queue[0] || y in r.queue[1..])
      && (forall y | y in r.queue[1..] :: r.queue[0] < y)
      && Ascending(r.dropped + [r.queue[0]])
      && (forall y :: y in r.dropped + [r.queue[0]] <==> y in r.dropped || y == r.queue[0])
  {
    if r.enq.DropOldest? {
      if r.queue != [] {
        TailAscending(r.queue);
        assert r.queue[0] in r.queue;
        AppendAscending(r.dropped, r.queue[0]);
      }
    } else {
      AppendAscending(r.queue, r.enq.ch);
    }
  }

  lemma EnqueueStepConserved(r: Run)
    requires Inv(r) && EnqueueEnabled(r)
    ensures Conserved(EnqueueStep(r))
  {
    EnqueueStepLists(r);
  }

  lemma EnqueueStepTracked(r: Run)
    requires Inv(r) && EnqueueEnabled(r)
    ensures Tracked(EnqueueStep(r))
  {
    if r.enq.DropOldest? && r.queue != [] {
      assert r.queue == [r.queue[0]] + r.queue[1..];
    }
  }

  lemma EnqueueStepControl(r: Run)
    requires Inv(r) && EnqueueEnabled(r)
    ensures Control(EnqueueStep(r))
  {
    if r.enq.DropOldest? && r.queue != [] {
      assert r.queue == [r.queue[0]] + r.queue[1..];
    }
  }

  lemma NotifiedInv(r: Run)
    requires Inv(r) && r.enq.OwesNotify?
    ensures Inv(r.(enq := Idle))
  {
  }

  lemma BeginStopInv(r: Run)
    requires Inv(r)
    ensures Inv(BeginStop(r))
  {
  }

  lemma PopOrdered(r: Run)
    requires Inv(r) && r.queue != [] && r.queue[0] !in r.outstanding
    ensures Ordered(Pop(r))
  {
    TailAscending(r.queue);
    assert r.queue[0] in r.queue;
  }

  lemma PopConserved(r: Run)
    requires Inv(r) && r.queue != [] && r.queue[0] !in r.outstanding
    ensures Conserved(Pop(r))
  {
    TailAscending(r.queue);
    assert r.queue[0] in r.queue;
  }

  lemma PopTracked(r: Run)
    requires Inv(r) && r.queue != [] && r.queue[0] !in r.outstanding
    ensures Tracked(Pop(r))
  {
    assert r.queue == [r.queue[0]] + r.queue[1..];
  }

  lemma PopControl(r: Run)
    requires Inv(r) && r.queue != [] && r.queue[0] !in r.outstanding
    ensures Control(Pop(r))
  {
    assert r.queue == [r.queue[0]] + r.queue[1..];
  }

  lemma DeliverInv(r: Run, ch: nat)
    requires Inv(r) && ch in r.working
    ensures Inv(Deliver(r, ch))
  {
  }

  lemma ReceiveOrdered(r: Run)
    requires Inv(r) && ReceiveEnabled(r)
    ensures Ordered(Receive(r))
  {
    assert r.results == [r.results[0]] + r.results[1..];
    assert r.results[0] in r.outstanding;
  }

  lemma ReceiveConserved(r: Run)
    requires Inv(r) && ReceiveEnabled(r)
    ensures Conserved(Receive(r))
  {
    assert r.results == [r.results[0]] + r.results[1..];
    assert r.results[0] in r.outstanding;
  }

  lemma ReceiveTracked(r: Run)
    requires Inv(r) && ReceiveEnabled(r)
    ensures Tracked(Receive(r))
  {
    assert r.results == [r.results[0]] + r.results[1..];
    assert r.results[0] in r.outstanding;
  }

  lemma ReceiveControl(r: Run)
    requires Inv(r) && ReceiveEnabled(r)
    ensures Control(Receive(r))
  {
    assert r.results == [r.results[0]] + r.results[1..];
    assert r.results[0] in r.outstanding;
  }

  /** The emission itself: the lowest pending index is above all emitted and below all in flight. */
  lemma EmitLowest(r: Run)
    requires Inv(r) && r.pending != {}
    requires r.outstanding == [] || r.outstanding[0] >= Lowest(r.pending)
    ensures AllBelow(r.emitted, Lowest(r.pending))
    ensures Ascending(r.emitted + [Lowest(r.pending)])
    ensures forall y :: y in r.emitted + [Lowest(r.pending)] <==> y in r.emitted || y == Lowest(r.pending)
    ensures forall x | x in r.outstanding :: Lowest(r.pending) < x
    ensures forall x | x in r.queue :: Lowest(r.pending) < x
    ensures forall x | x in r.pending && x != Lowest(r.pending) :: Lowest(r.pending) < x
  {
    AppendAscending(r.emitted, Lowest(r.pending));
    if r.outstanding != [] {
      TailAscending(r.outstanding);
    }
  }

  lemma LoopStepOrdered(r: Run, tail: bool)
    requires Inv(r) && LoopEnabled(r)
    ensures Ordered(LoopStep(r, tail))
  {
    if r.loop.EmitCheck? && (r.outstanding == [] || r.outstanding[0] >= Lowest(r.pending)) {
      EmitLowest(r);
    }
  }

  lemma LoopStepConserved(r: Run, tail: bool)
    requires Inv(r) && LoopEnabled(r)
    ensures Conserved(LoopStep(r, tail))
  {
    if r.loop.EmitCheck? && (r.outstanding == [] || r.outstanding[0] >= Lowest(r.pending)) {
      EmitLowest(r);
    }
  }

  lemma LoopStepTracked(r: Run, tail: bool)
    requires Inv(r) && LoopEnabled(r)
    ensures Tracked(LoopStep(r, tail))
  {
  }

  lemma LoopStepControl(r: Run, tail: bool)
    requires Inv(r) && LoopEnabled(r)
    ensures Control(LoopStep(r, tail))
  {
  }

  lemma StopWakeInv(r: Run)
    requires Inv(r) && StopWakeEnabled(r)
    ensures Inv(StopWake(r))
  {
  }

  lemma HeartbeatInv(r: Run)
    requires Inv(r) && r.loop.Waiting?
    ensures Inv(Heartbeat(r))
  {
  }

  lemma LeaveInv(r: Run, loop: LoopPc)
    requires Inv(r) && ((r.loop.Exiting? && loop == Leaving) || (r.loop.Leaving? && loop == Done))
    ensures Inv(r.(loop := loop))
  {
  }

  lemma PopInv(r: Run)
    requires Inv(r) && r.queue != []
    ensures r.queue[0] !in r.outstanding && Inv(Pop(r))
  {
    assert r.queue[0] in r.queue;
    PopOrdered(r);
    PopConserved(r);
    PopTracked(r);
    PopControl(r);
  }

  lemma EnqueueStepInv(r: Run)
    requires Inv(r) && EnqueueEnabled(r)
    ensures Inv(EnqueueStep(r))
  {
    EnqueueStepOrdered(r);
    EnqueueStepConserved(r);
    EnqueueStepTracked(r);
    EnqueueStepControl(r);
  }

  lemma ReceiveInv(r: Run)
    requires Inv(r) && ReceiveEnabled(r)
    ensures Inv(Receive(r))
  {
    ReceiveOrdered(r);
    ReceiveConserved(r);
    ReceiveTracked(r);
    ReceiveControl(r);
  }

  lemma LoopStepInv(r: Run, tail: bool)
    requires Inv(r) && LoopEnabled(r)
    ensures Inv(LoopStep(r, tail))
  {
    LoopStepOrdered(r, tail);
    LoopStepConserved(r, tail);
    LoopStepTracked(r, tail);
    LoopStepControl(r, tail);
  }
}
