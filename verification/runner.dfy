/**
 * The Runner object of runner.go with its fields updated in place. Each method is proved to
 * do what its goroutine's steps in RunSteps do when nobody interleaves with them.
 */
module Runners {
  import opened SortedIndexes
  import opened RunSteps
  import opened RunInvariant

  // -------------------------------- step sequences that nobody interleaves with

  /** `enqueue` from its first select to the notify. */
  function EnqueueAlone(r: Run): Run
    requires r.enq.TrySend? && |r.queue| <= QUEUE_SIZE
  {
    var first := EnqueueStep(r);
    if first.enq.OwesNotify? then first else EnqueueStep(EnqueueStep(first))
  }

  /** The emit loop, from its head until it breaks or its condition fails. */
  ghost function EmitAlone(r: Run): Run
    requires r.loop.Emitting?
    decreases |r.pending|
  {
    var checked := LoopStep(r, false);
    if checked.loop.Top? then checked else
    var emitted := LoopStep(checked, false);
    if emitted.loop.Top? then emitted else EmitAlone(emitted)
  }

  /** The newest QUEUE_SIZE chunks stay queued; the one pushed out is logged as dropped. */
  lemma EnqueueAloneKeepsNewest(r: Run)
    requires r.enq.TrySend? && |r.queue| <= QUEUE_SIZE
    ensures EnqueueAlone(r).enq.OwesNotify?
    ensures r.dropped + r.queue + [r.enq.ch] == EnqueueAlone(r).dropped + EnqueueAlone(r).queue
    ensures |EnqueueAlone(r).queue| == if |r.queue| < QUEUE_SIZE then |r.queue| + 1 else QUEUE_SIZE
    ensures EnqueueAlone(r) == r.(enq := OwesNotify, queue := EnqueueAlone(r).queue, dropped := EnqueueAlone(r).dropped)
  {
    if |r.queue| == QUEUE_SIZE {
      assert r.queue == [r.queue[0]] + r.queue[1..];
    }
  }

  /** What one receive releases: with the queue empty, all pending below the first outstanding. */
  ghost predicate Released(r: Run, x: nat) {
    x in r.pending && r.queue == [] && (r.outstanding != [] ==> x < r.outstanding[0])
  }

  /** r' is r after emitting exactly the released indexes, in ascending order. */
  ghost predicate EmitsReleased(r: Run, r': Run) {
    && r.emitted <= r'.emitted
    && var batch := r'.emitted[|r.emitted|..];
    && Ascending(batch)
    && (forall x :: x in batch <==> Released(r, x))
    && (forall x :: x in r'.pending <==> x in r.pending && !Released(r, x))
    && r' == r.(emitted := r'.emitted, pending := r'.pending, loop := Top)
  }

  lemma {:induction false} EmitAloneReleases(r: Run)
    requires r.loop.Emitting?
    requires Ascending(r.outstanding) && forall x | x in r.pending :: x !in r.outstanding
    ensures EmitsReleased(r, EmitAlone(r))
    decreases |r.pending|
  {
    var checked := LoopStep(r, false);
    if checked.loop.Top? {
      assert r.emitted[|r.emitted|..] == [];
    } else {
      var next := LoopStep(checked, false);
      if next.loop.Top? {
        assert r.emitted[|r.emitted|..] == [];
      } else {
        EmitAloneReleases(next);
        EmitOneMore(r, next, EmitAlone(next));
      }
    }
  }

  lemma EmitOneMore(r: Run, next: Run, r': Run)
    requires r.pending != {} && r.queue == [] && r.loop.Emitting?
    requires forall x | x in r.pending :: x !in r.outstanding
    requires r.outstanding != [] ==> r.outstanding[0] in r.outstanding && Lowest(r.pending) <= r.outstanding[0]
    requires next == r.(emitted := r.emitted + [Lowest(r.pending)], pending := r.pending - {Lowest(r.pending)})
    requires EmitsReleased(next, r')
    ensures EmitsReleased(r, r')
  {
    var lowest := Lowest(r.pending);
    var batch, rest := r'.emitted[|r.emitted|..], r'.emitted[|next.emitted|..];
    assert batch == [lowest] + rest;
    assert Released(r, lowest);
    forall i | 0 <= i < |rest|
      ensures lowest < rest[i]
    {
      assert rest[i] in rest;
      assert Released(next, rest[i]);
    }
    assert forall x :: Released(r, x) <==> x == lowest || Released(next, x);
    assert forall x :: x in batch <==> x == lowest || x in rest;
  }

  // ------------------------------------------------------------------ the object

  class Runner {
    var queue: seq<nat>        // chan chunk.Chunk, capacity QUEUE_SIZE
    var outstanding: seq<nat>
    var results: seq<nat>      // chan chunkResult
    var pending: set<nat>
    var emitted: seq<nat>      // chunks handed to emitResult
    var dropped: seq<nat>      // chunk_dropped log events
    var stopping: bool         // stopCh is closed

    constructor ()
      ensures Valid()
      ensures queue == outstanding == results == emitted == dropped == [] && pending == {} && !stopping
    {
      queue, outstanding, results, emitted, dropped := [], [], [], [], [];
      pending, stopping := {}, false;
    }

    /** The fields as a run whose enqueuer and dispatcher stand at the given places. */
    ghost function At(enq: EnqueuePc, loop: LoopPc): Run
      reads this
    {
      NewRun.(queue := queue, outstanding := outstanding, results := results,
              pending := pending, emitted := emitted, dropped := dropped, stopping := stopping, enq := enq, loop := loop)
    }

    ghost predicate Valid()
      reads this`queue, this`outstanding, this`pending
    {
      && |queue| <= QUEUE_SIZE
      && Ascending(queue) && Ascending(outstanding) && SeqBelow(outstanding, queue)
      && (forall x | x in pending :: x !in outstanding)
      && (forall x, y | x in pending && y in queue :: x < y)
    }

    method Enqueue(ch: nat)
      requires Valid() && forall x | x in queue || x in outstanding || x in pending :: x < ch
      modifies this`queue, this`dropped
      ensures Valid()
      ensures At(OwesNotify, Waiting) == EnqueueAlone(old(At(TrySend(ch), Waiting)))
    {
      AppendAscending(queue, ch);
      if |queue| < QUEUE_SIZE {
        queue := queue + [ch];
        return;
      }
      TailAscending(queue);
      AppendAscending(queue[1..], ch);
      if |queue| > 0 {
        dropped := dropped + [queue[0]];
        queue := queue[1..];
      }
      queue := queue + [ch];
    }

    /** Asks the run to wind down without waiting; once is enough. */
    method BeginStop()
      modifies this`stopping
      ensures At(Idle, Waiting) == RunSteps.BeginStop(old(At(Idle, Waiting)))
    {
      stopping := true;
    }

    method PopQueued() returns (ch: nat, ok: bool)
      requires Valid()
      modifies this`queue, this`outstanding
      ensures Valid() && ok == (old(queue) != [])
      ensures ok ==>
        && ch == old(queue)[0] && ch !in old(outstanding)
        && At(Idle, Waiting) == Pop(old(At(Idle, Waiting))).(working := {})
      ensures !ok ==> queue == old(queue) && outstanding == old(outstanding)
    {
      if queue == [] {
        return 0, false;
      }
      TailAscending(queue);
      assert queue[0] in queue;
      ch, ok := queue[0], true;
      queue := queue[1..];
      outstanding := InsertSorted(outstanding, ch);
    }

    method MinOutstanding() returns (lowest: int)
      requires Valid()
      ensures lowest == if outstanding == [] then -1 else outstanding[0]
      ensures forall x | x in outstanding :: lowest <= x
    {
      if |outstanding| == 0 {
        return -1;
      }
      return outstanding[0];
    }

    /** The results case of the dispatcher's select, with its emit loop. */
    method ReceiveAndEmit()
      requires Valid() && results != [] && results[0] in outstanding
      modifies this`results, this`outstanding, this`pending, this`emitted
      ensures Valid()
      ensures At(Idle, Top) == EmitAlone(Receive(old(At(Idle, Waiting))))
    {
      var index := results[0];
      results := results[1..];
      outstanding := RemoveIndex(outstanding, index);
      pending := pending + {index};
      EmitPending();
    }

    /** The emit loop. */
    method EmitPending()
      requires Valid()
      modifies this`pending, this`emitted
      ensures Valid()
      ensures At(Idle, Top) == EmitAlone(old(At(Idle, Emitting)))
    {
      while pending != {} && queue == []
        invariant Valid()
        invariant EmitAlone(At(Idle, Emitting)) == EmitAlone(old(At(Idle, Emitting)))
        decreases |pending|
      {
        var lowest := MinPending(pending);
        var earlier := MinOutstanding();
        if earlier >= 0 && earlier < lowest {
          break;
        }
        emitted := emitted + [lowest];
        pending := pending - {lowest};
      }
    }
  }
}
