/** The shared round-robin scheduler of services/pipeline/internal/session/scheduler.go. */
module Schedulers {
  import opened Rings
  import opened SortedIndexes
  import opened RunSteps
  import opened Runners

  /** Which of the runners have queued work. */
  ghost function Ready(runners: seq<Runner>): (ready: seq<bool>)
    reads runners
    ensures |ready| == |runners| && forall i | 0 <= i < |runners| :: ready[i] <==> runners[i].queue != []
  {
    seq(|runners|, i requires 0 <= i < |runners| reads runners => runners[i].queue != [])
  }

  class Scheduler {
    const maxConcurrency: nat
    var sem: nat               // slots taken
    var wake: bool             // the cap-1 wake channel holds a token
    var runners: seq<Runner>   // registration order
    var next: nat              // round-robin cursor

    constructor (maxConcurrency: nat)
      ensures Valid() && this.maxConcurrency == maxConcurrency
      ensures sem == 0 && !wake && runners == [] && next == 0
    {
      this.maxConcurrency := maxConcurrency;
      sem, wake, runners, next := 0, false, [], 0;
    }

    ghost predicate Valid()
      reads this, runners`queue, runners`outstanding, runners`pending
    {
      && sem <= maxConcurrency
      && next <= |runners| && (runners != [] ==> next < |runners|)
      && (forall i, j | 0 <= i < j < |runners| :: runners[i] != runners[j])
      && forall r | r in runners :: r.Valid()
    }

    method Notify()
      modifies this`wake
      ensures wake
    {
      wake := true;
    }

    method Add(runner: Runner)
      requires Valid() && runner !in runners && runner.Valid()
      modifies this`runners, this`wake
      ensures Valid() && runners == old(runners) + [runner] && wake
    {
      runners := runners + [runner];
      Notify();
    }

    method Remove(runner: Runner)
      requires Valid()
      modifies this`runners, this`next
      ensures Valid() && runner !in runners
      ensures runner !in old(runners) ==> runners == old(runners)
      ensures runner in old(runners) ==> exists i ::
        && 0 <= i < |old(runners)| && old(runners)[i] == runner
        && runners == old(runners)[..i] + old(runners)[i + 1..]
      ensures next == if old(next) >= |runners| then 0 else old(next)
    {
      var i := 0;
      while i < |runners|
        invariant 0 <= i <= |runners| && runners == old(runners)
        invariant forall k | 0 <= k < i :: runners[k] != runner
      {
        if runners[i] == runner {
          runners := runners[..i] + runners[i + 1..];
          break;
        }
        i := i + 1;
      }
      if next >= |runners| {
        next := 0;
      }
    }

    /** Pops from the first runner with work, counted round-robin from the cursor. */
    method Take() returns (pos: nat, ch: nat, ok: bool)
      requires Valid()
      modifies this`next, runners`queue, runners`outstanding
      ensures Valid() && runners == old(runners)
      ensures !ok ==> next == old(next) && (forall i | 0 <= i < |runners| :: !old(Ready(runners))[i])
      ensures !ok ==> forall r | r in runners :: unchanged(r)
      ensures ok ==>
        && pos < |runners| && FirstReady(old(Ready(runners)), old(next), pos)
        && next == (pos + 1) % |runners|
        && old(runners[pos].queue) != [] && ch == old(runners[pos].queue[0])
        && ch !in old(runners[pos].outstanding)
        && runners[pos].At(Idle, Waiting) == Pop(old(runners[pos].At(Idle, Waiting))).(working := {})
        && forall r | r in runners && r != runners[pos] :: unchanged(r)
    {
      pos, ch, ok := 0, 0, false;
      ghost var ready := Ready(runners);
      var n := |runners|;
      var i := 0;
      while i < n
        invariant 0 <= i <= n && runners == old(runners) && next == old(next)
        invariant forall r | r in runners :: unchanged(r) && r.Valid()
        invariant forall k | 0 <= k < i :: !ready[At(next, k, n)]
      {
        pos := (next + i) % n;
        assert pos == At(next, i, n);
        ghost var here := ready[pos];
        ch, ok := runners[pos].PopQueued();
        assert ok == here;
        if ok {
          FirstReadyAt(ready, next, i);
          next := (pos + 1) % n;
          return;
        }
        i := i + 1;
      }
      if n > 0 {
        NoneReady(ready, next);
      }
    }

    /** Takes a slot and hands it one chunk, or gives the slot back when no queue holds work. */
    method Dispatch() returns (pos: nat, ch: nat, dispatched: bool)
      requires Valid()
      modifies this`sem, this`next, runners`queue, runners`outstanding
      ensures Valid() && runners == old(runners)
      ensures !dispatched ==> old(sem) == maxConcurrency || forall i | 0 <= i < |runners| :: !old(Ready(runners))[i]
      ensures dispatched ==> old(sem) < maxConcurrency
      ensures sem == if dispatched then old(sem) + 1 else old(sem)
      ensures !dispatched ==> next == old(next) && forall r | r in runners :: unchanged(r)
      ensures dispatched ==>
        && pos < |runners| && FirstReady(old(Ready(runners)), old(next), pos) && next == (pos + 1) % |runners|
        && old(runners[pos].queue) != [] && ch == old(runners[pos].queue[0])
        && ch in runners[pos].outstanding && runners[pos].queue == old(runners[pos].queue)[1..]
        && forall r | r in runners && r != runners[pos] :: unchanged(r)
    {
      pos, ch := 0, 0;
      if sem == maxConcurrency {
        return 0, 0, false;
      }
      ghost var ready := Ready(runners);
      sem := sem + 1;
      assert Ready(runners) == ready;
      pos, ch, dispatched := Take();
      if !dispatched {
        sem := sem - 1;
      }
    }
  }
}
