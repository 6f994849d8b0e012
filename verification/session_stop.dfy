/**
 * Stopping one session while the others live on: the run takes boundedly many more steps for each of its heartbeats,
 * whatever the rest of the service does, and has one to take until it is done, waits for its turn at the scheduler,
 * or waits for a scan to end.
 */
module SessionStop {
  import opened RunSteps
  import opened RunInvariant
  import opened SessionSystem
  import opened SessionInvariant
  import opened SessionDrain

  /** The steps of a trace that change run r, its heartbeats aside. */
  ghost function StepsOf(s: Sys, actions: seq<Action>, r: nat): nat
    requires IsTrace(s, actions)
    decreases |actions|
  {
    if actions == [] then 0 else
    (if Moves(s, actions[0], r) then 1 else 0) + StepsOf(Apply(s, actions[0]), actions[1..], r)
  }

  ghost predicate Moves(s: Sys, a: Action, r: nat)
    requires Enabled(s, a)
  {
    a != Beat(r) && IsRun(s, r) && IsRun(Apply(s, a), r) && Apply(s, a).runs[r] != s.runs[r]
  }

  function BeatsOf(actions: seq<Action>, r: nat): nat {
    if actions == [] then 0 else (if actions[0] == Beat(r) then 1 else 0) + BeatsOf(actions[1..], r)
  }

  /** What any action makes of run r, once r is stopping: nothing, or less work, unless it is a heartbeat of r. */
  lemma StepOfStopped(s: Sys, a: Action, r: nat)
    requires SysInv(s) && IsRun(s, r) && s.runs[r].stopping && Enabled(s, a)
    ensures IsRun(Apply(s, a), r)
    ensures var run, run' := s.runs[r], Apply(s, a).runs[r];
      && run'.stopping
      && (a == Beat(r) ==> Work(run') == Work(run) + 7)
      && (a != Beat(r) ==> run' == run || Work(run') < Work(run))
  {
    if a.Schedule? {
      ScheduleOfStopped(s, r);
    } else if OwnAction(a) {
      OwnStepLocal(s, a);
      if a.r == r && !a.Beat? {
        OwnStepOfStopped(s.runs[r], a);
      }
    } else {
      HandOverOfStopped(s, a, r);
    }
  }

  lemma HandOverOfStopped(s: Sys, a: Action, r: nat)
    requires Enabled(s, a) && IsRun(s, r) && !OwnAction(a) && !a.Schedule?
    ensures var s' := Apply(s, a);
      IsRun(s', r) && s'.runs[r].stopping == s.runs[r].stopping && (s'.runs[r] == s.runs[r] || Work(s'.runs[r]) < Work(s.runs[r]))
  {
    if a.NotifyEnqueued? {
      RunReplaced(s, a, a.r, s.runs[a.r].(enq := Idle), r);
    } else if a.Unregister? {
      RunReplaced(s, a, a.r, s.runs[a.r].(loop := Leaving), r);
    } else if a.Leave? {
      RunReplaced(s, a, a.r, s.runs[a.r].(loop := Done), r);
    } else if a.Finish? {
      RunReplaced(s, a, a.r, Deliver(s.runs[a.r], a.ch), r);
    }
  }

  lemma RunReplaced(s: Sys, a: Action, q: nat, run: Run, r: nat)
    requires Enabled(s, a) && IsRun(s, q) && IsRun(s, r) && Apply(s, a).runs == s.runs[q := run]
    requires run.stopping == s.runs[q].stopping && Work(run) < Work(s.runs[q])
    ensures var s' := Apply(s, a);
      IsRun(s', r) && s'.runs[r].stopping == s.runs[r].stopping && (s'.runs[r] == s.runs[r] || Work(s'.runs[r]) < Work(s.runs[r]))
  {
  }

  lemma OwnStepOfStopped(run: Run, a: Action)
    requires run.stopping && (a.StopRun? || a.Enqueue? || a.Loop? || a.ReceiveResult? || a.NoticeStop?)
    requires a.Enqueue? ==> EnqueueEnabled(run)
    requires a.Loop? ==> LoopEnabled(run)
    requires a.ReceiveResult? ==> ReceiveEnabled(run)
    requires a.NoticeStop? ==> StopWakeEnabled(run)
    ensures var run' := RunStep(run, a);
      run'.stopping && if a.StopRun? then run' == run else Work(run') < Work(run)
  {
    match a {
      case StopRun(_) =>
      case Enqueue(_) => EnqueueWorkFalls(run);
      case Loop(_, tail) => LoopWorkFalls(run, tail);
      case ReceiveResult(_) => ReceiveWorkFalls(run);
      case NoticeStop(_) =>
    }
  }

  lemma ScheduleOfStopped(s: Sys, r: nat)
    requires SysInv(s) && IsRun(s, r) && Enabled(s, Schedule)
    ensures var s' := Apply(s, Schedule);
      IsRun(s', r) && s'.runs[r].stopping == s.runs[r].stopping && (s'.runs[r] == s.runs[r] || Work(s'.runs[r]) < Work(s.runs[r]))
  {
    ScheduleRuns(s);
  }

  /** However long the trace, a stopping run changes at most as often as it has work, plus seven times per heartbeat. */
  lemma {:induction false} StopIsBounded(s: Sys, actions: seq<Action>, r: nat)
    requires SysInv(s) && IsTrace(s, actions) && IsRun(s, r) && s.runs[r].stopping
    ensures var end := After(s, actions);
      && SysInv(end) && IsRun(end, r) && end.runs[r].stopping
      && StepsOf(s, actions, r) + Work(end.runs[r]) <= Work(s.runs[r]) + 7 * BeatsOf(actions, r)
    decreases |actions|
  {
    if actions != [] {
      StepInv(s, actions[0]);
      StepOfStopped(s, actions[0], r);
      StopIsBounded(Apply(s, actions[0]), actions[1..], r);
    }
  }

  // ------------------------------------------------------------ never stuck early

  ghost predicate CanStep(s: Sys, r: nat) {
    exists a :: Enabled(s, a) && Moves(s, a, r)
  }

  lemma Steps(s: Sys, a: Action, r: nat)
    requires Enabled(s, a) && Moves(s, a, r)
    ensures CanStep(s, r)
  {
  }

  /** The dispatcher that is awake, or the enqueuer it waits for. */
  lemma DispatcherSteps(s: Sys, r: nat)
    requires RegistryInv(s) && IsRun(s, r) && Control(s.runs[r]) && s.runs[r].stopping
    requires !s.runs[r].loop.Done? && !s.runs[r].loop.Waiting? && !(s.runs[r].loop.Leaving? && s.sched.Scan?)
    ensures CanStep(s, r)
  {
    var run := s.runs[r];
    if run.loop.Exiting? {
      Steps(s, Unregister(r), r);
    } else if run.loop.Leaving? {
      Steps(s, Leave(r), r);
    } else if LoopEnabled(run) {
      LoopWorkFalls(run, false);
      Steps(s, Loop(r, false), r);
    } else if run.enq.OwesNotify? {
      Steps(s, NotifyEnqueued(r), r);
    } else {
      EnqueueWorkFalls(run);
      Steps(s, Enqueue(r), r);
    }
  }

  /** A dispatcher asleep in its select with nothing queued. */
  lemma SleeperSteps(s: Sys, r: nat)
    requires SlotsInv(s) && IsRun(s, r) && Inv(s.runs[r]) && s.runs[r].stopping
    requires s.runs[r].loop.Waiting? && s.runs[r].queue == []
    ensures CanStep(s, r)
  {
    var run := s.runs[r];
    if run.stopWake {
      Steps(s, NoticeStop(r), r);
    } else {
      assert run.outstanding[0] in run.outstanding;
      if run.results != [] {
        ReceiveWorkFalls(run);
        Steps(s, ReceiveResult(r), r);
      } else {
        var ch :| ch in run.working;
        Steps(s, Finish(r, ch), r);
      }
    }
  }

  /**
   * Until it is done a stopping run can step, or holds queued chunks for the scheduler, or waits for the scan that
   * holds the scheduler's lock; and then the service can move.
   */
  lemma StoppedIsNeverStuck(s: Sys, r: nat)
    requires SysInv(s) && IsRun(s, r) && s.runs[r].stopping && !s.runs[r].loop.Done?
    ensures CanStep(s, r) || s.runs[r].queue != [] || (s.runs[r].loop.Leaving? && s.sched.Scan?)
    ensures CanMove(s)
  {
    var run := s.runs[r];
    assert Inv(run);
    if !run.loop.Waiting? {
      DispatcherMoves(s, r);
      if !(run.loop.Leaving? && s.sched.Scan?) {
        DispatcherSteps(s, r);
      }
    } else if run.queue != [] {
      QueuedWorkMoves(s, r);
    } else {
      SleeperSteps(s, r);
      SleeperMoves(s, r);
    }
  }

  lemma SleeperMoves(s: Sys, r: nat)
    requires SysInv(s) && IsRun(s, r) && Inv(s.runs[r]) && s.runs[r].stopping
    requires s.runs[r].loop.Waiting? && s.runs[r].queue == []
    ensures CanMove(s)
  {
    var run := s.runs[r];
    if run.stopWake {
      SessionDrain.Moves(s, NoticeStop(r));
    } else {
      assert run.outstanding[0] in run.outstanding;
      WorkerMoves(s, r);
    }
  }

  /**
   * Stop returns. Once the run of one session was asked to stop, in any trace of the whole service it steps boundedly
   * often for each of its heartbeats; and where it neither can step nor waits for the scheduler it is done and has
   * emitted or dropped each chunk it ever got.
   */
  lemma StopReturns(max: nat, actions: seq<Action>, rest: seq<Action>, r: nat)
    requires max > 0 && IsTrace(Init(max), actions) && StopRun(r) in actions
    requires IsTrace(After(Init(max), actions), rest) && IsRun(After(Init(max), actions), r)
    ensures var s := After(Init(max), actions);
      StepsOf(s, rest, r) <= Work(s.runs[r]) + 7 * BeatsOf(rest, r)
    ensures IsTrace(Init(max), actions + rest) && IsRun(After(Init(max), actions + rest), r)
    ensures var end := After(Init(max), actions + rest); var run := end.runs[r];
      !CanStep(end, r) && run.queue == [] && !(run.loop.Leaving? && end.sched.Scan?) ==>
        run.loop.Done? && |run.emitted| + |run.dropped| == Produced(Init(max), actions + rest, r)
  {
    InitInv(max);
    TraceInv(Init(max), actions);
    StoppingIffAsked(Init(max), actions, r);
    var s := After(Init(max), actions);
    StopIsBounded(s, rest, r);
    TraceConcat(Init(max), actions, rest);
    var end := After(s, rest);
    if end.runs[r].loop.Done? {
      IdleAccountsForAll(max, actions + rest, r);
    } else {
      StoppedIsNeverStuck(end, r);
    }
  }

  /** After a stop request a run gets at most one more chunk, the tail, and only before its loop has seen the request. */
  lemma {:induction false} OnlyTheTailFollows(s: Sys, actions: seq<Action>, r: nat)
    requires SysInv(s) && IsTrace(s, actions) && IsRun(s, r) && s.runs[r].stopping
    ensures Produced(s, actions, r) <= if s.runs[r].flushed then 0 else 1
    decreases |actions|
  {
    if actions != [] {
      StepInv(s, actions[0]);
      StepOfStopped(s, actions[0], r);
      FlushedOnce(s, actions[0], r);
      OnlyTheTailFollows(Apply(s, actions[0]), actions[1..], r);
    }
  }

  lemma FlushedOnce(s: Sys, a: Action, r: nat)
    requires Enabled(s, a) && IsRun(s, r) && s.runs[r].stopping
    ensures IsRun(Apply(s, a), r)
    ensures s.runs[r].flushed ==> Apply(s, a).runs[r].flushed && !Produces(s, a, r)
    ensures Produces(s, a, r) ==> Apply(s, a).runs[r].flushed
  {
    if a == Loop(r, true) || a == Loop(r, false) {
      LoopFlushesOnce(s, a, r);
    } else if a.Schedule? {
      ScheduleKeepsFlushed(s, r);
    }
  }

  lemma LoopFlushesOnce(s: Sys, a: Action, r: nat)
    requires Enabled(s, a) && a.Loop? && a.r == r && s.runs[r].stopping
    ensures IsRun(Apply(s, a), r)
    ensures s.runs[r].flushed ==> Apply(s, a).runs[r].flushed && !Produces(s, a, r)
    ensures Produces(s, a, r) ==> Apply(s, a).runs[r].flushed
  {
  }

  lemma ScheduleKeepsFlushed(s: Sys, r: nat)
    requires Enabled(s, Schedule) && IsRun(s, r)
    ensures IsRun(Apply(s, Schedule), r) && Apply(s, Schedule).runs[r].flushed == s.runs[r].flushed
  {
  }
}
