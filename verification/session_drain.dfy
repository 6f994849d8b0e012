/**
 * What holds over every run of the session service, and that a shutdown always ends: after
 * `closed`, with every remaining run told to stop, the service does a bounded number of further
 * steps, is never stuck before every run is done, and leaves nothing behind.
 */
module SessionDrain {
  import opened SortedIndexes
  import opened RunSteps
  import opened RunInvariant
  import opened SessionSystem
  import opened SessionInvariant

  // -------------------------------------------------------------- safety over runs

  /** The actions can be taken one after the other, starting in s. */
  ghost predicate IsTrace(s: Sys, actions: seq<Action>)
    decreases |actions|
  {
    actions != [] ==> Enabled(s, actions[0]) && IsTrace(Apply(s, actions[0]), actions[1..])
  }

  ghost function After(s: Sys, actions: seq<Action>): Sys
    requires IsTrace(s, actions)
    decreases |actions|
  {
    if actions == [] then s else After(Apply(s, actions[0]), actions[1..])
  }

  lemma {:induction false} TraceInv(s: Sys, actions: seq<Action>)
    requires SysInv(s) && IsTrace(s, actions)
    ensures SysInv(After(s, actions))
    decreases |actions|
  {
    if actions != [] {
      StepInv(s, actions[0]);
      TraceInv(Apply(s, actions[0]), actions[1..]);
    }
  }

  lemma MaxStays(s: Sys, a: Action)
    requires Enabled(s, a)
    ensures Apply(s, a).max == s.max
  {
  }

  lemma {:induction false} MaxStaysOver(s: Sys, actions: seq<Action>)
    requires IsTrace(s, actions)
    ensures After(s, actions).max == s.max
    decreases |actions|
  {
    if actions != [] {
      MaxStays(s, actions[0]);
      MaxStaysOver(Apply(s, actions[0]), actions[1..]);
    }
  }

  // ------------------------------------------------------- what goes into a run

  /** In this step run r gets a chunk from its chunker: a push, or the tail at the first turn of the loop after a stop. */
  predicate Produces(s: Sys, a: Action, r: nat) {
    a == Push(r) || (a == Loop(r, true) && IsRun(s, r) && s.runs[r].loop.Top? && s.runs[r].stopping && !s.runs[r].flushed)
  }

  /** How many chunks run r gets in the course of a trace. */
  ghost function Produced(s: Sys, actions: seq<Action>, r: nat): nat
    requires IsTrace(s, actions)
    decreases |actions|
  {
    if actions == [] then 0 else
    (if Produces(s, actions[0], r) then 1 else 0) + Produced(Apply(s, actions[0]), actions[1..], r)
  }

  function NextOf(s: Sys, r: nat): nat { if IsRun(s, r) then s.runs[r].next else 0 }

  predicate IsStopping(s: Sys, r: nat) { IsRun(s, r) && s.runs[r].stopping }

  /** Every step that brings a chunk takes a new index for it, and only a stop request makes a run stopping. */
  lemma StepProduces(s: Sys, a: Action, r: nat)
    requires Enabled(s, a)
    ensures NextOf(Apply(s, a), r) == NextOf(s, r) + if Produces(s, a, r) then 1 else 0
    ensures IsStopping(Apply(s, a), r) <==> IsStopping(s, r) || a == StopRun(r)
  {
    if OwnAction(a) {
      OwnStepLocal(s, a);
      OwnStepProduces(s.runs[a.r], a);
    } else {
      OtherStepProduces(s, a, r);
    }
  }

  lemma OwnStepProduces(run: Run, a: Action)
    requires OwnAction(a)
    requires a.Enqueue? ==> EnqueueEnabled(run)
    requires a.Loop? ==> LoopEnabled(run)
    requires a.ReceiveResult? ==> ReceiveEnabled(run)
    ensures var run' := RunStep(run, a);
      && run'.next == run.next + (if a.Push? || (a.Loop? && a.tail && run.loop.Top? && run.stopping && !run.flushed) then 1 else 0)
      && run'.stopping == (run.stopping || a.StopRun?)
  {
  }

  lemma OtherStepProduces(s: Sys, a: Action, r: nat)
    requires Enabled(s, a) && !OwnAction(a)
    ensures NextOf(Apply(s, a), r) == NextOf(s, r) && IsStopping(Apply(s, a), r) == IsStopping(s, r)
  {
    if a.Schedule? {
      ScheduleProduces(s, r);
    }
  }

  lemma ScheduleProduces(s: Sys, r: nat)
    requires Enabled(s, Schedule)
    ensures NextOf(Apply(s, Schedule), r) == NextOf(s, r) && IsStopping(Apply(s, Schedule), r) == IsStopping(s, r)
  {
  }

  lemma {:induction false} ProducedIsNext(s: Sys, actions: seq<Action>, r: nat)
    requires IsTrace(s, actions)
    ensures NextOf(After(s, actions), r) == NextOf(s, r) + Produced(s, actions, r)
    decreases |actions|
  {
    if actions != [] {
      StepProduces(s, actions[0], r);
      ProducedIsNext(Apply(s, actions[0]), actions[1..], r);
    }
  }

  /** A run is stopping exactly when it has been asked to. */
  lemma {:induction false} StoppingIffAsked(s: Sys, actions: seq<Action>, r: nat)
    requires IsTrace(s, actions)
    ensures IsStopping(After(s, actions), r) <==> IsStopping(s, r) || StopRun(r) in actions
    decreases |actions|
  {
    if actions != [] {
      StepProduces(s, actions[0], r);
      StoppingIffAsked(Apply(s, actions[0]), actions[1..], r);
    }
  }

  lemma {:induction false} TraceConcat(s: Sys, actions: seq<Action>, rest: seq<Action>)
    requires IsTrace(s, actions) && IsTrace(After(s, actions), rest)
    ensures IsTrace(s, actions + rest) && After(s, actions + rest) == After(After(s, actions), rest)
    decreases |actions|
  {
    if actions == [] {
      assert actions + rest == rest;
    } else {
      assert (actions + rest)[1..] == actions[1..] + rest;
      TraceConcat(Apply(s, actions[0]), actions[1..], rest);
    }
  }

  // ---------------------------------------------------------------- what comes out

  /**
   * In-order emission: under every interleaving the emitted indexes of a run ascend, and each lies
   * below everything of that run still pending, dispatched, queued or being enqueued.
   */
  lemma InOrderEmission(max: nat, actions: seq<Action>, r: nat)
    requires max > 0 && IsTrace(Init(max), actions) && IsRun(After(Init(max), actions), r)
    ensures var run := After(Init(max), actions).runs[r];
      && Ascending(run.emitted)
      && forall e, x | e in run.emitted &&
           (x in run.pending || x in run.outstanding || x in run.queue || x in Held(run)) :: e < x
  {
    InitInv(max);
    TraceInv(Init(max), actions);
    var run := After(Init(max), actions).runs[r];
    assert Inv(run);
  }

  /** Conservation: every produced chunk is in exactly one place, and none was invented. */
  lemma Conservation(max: nat, actions: seq<Action>, r: nat)
    requires max > 0 && IsTrace(Init(max), actions) && IsRun(After(Init(max), actions), r)
    ensures Conserved(After(Init(max), actions).runs[r])
    ensures After(Init(max), actions).runs[r].next == Produced(Init(max), actions, r)
  {
    InitInv(max);
    TraceInv(Init(max), actions);
    ProducedIsNext(Init(max), actions, r);
    assert Inv(After(Init(max), actions).runs[r]);
  }

  /** When a run has reported idle nothing is left anywhere: processed plus dropped is what was produced. */
  lemma IdleAccountsForAll(max: nat, actions: seq<Action>, r: nat)
    requires max > 0 && IsTrace(Init(max), actions) && IsRun(After(Init(max), actions), r)
    requires After(Init(max), actions).runs[r].loop in {Exiting, Leaving, Done}
    ensures var run := After(Init(max), actions).runs[r];
      && |run.emitted| + |run.dropped| == Produced(Init(max), actions, r)
      && run.queue == [] && run.outstanding == [] && run.results == [] && run.working == {} && run.pending == {}
  {
    InitInv(max);
    TraceInv(Init(max), actions);
    ProducedIsNext(Init(max), actions, r);
    FinishedRunIsEmpty(After(Init(max), actions).runs[r]);
  }

  lemma ResultsAreOutstanding(run: Run)
    requires Tracked(run)
    ensures run.results != [] ==> run.outstanding != []
  {
    if run.results != [] {
      assert run.results[0] in run.outstanding;
    }
  }

  lemma FinishedRunIsEmpty(run: Run)
    requires Inv(run) && run.loop in {Exiting, Leaving, Done}
    ensures |run.emitted| + |run.dropped| == run.next
    ensures run.queue == [] && run.outstanding == [] && run.results == [] && run.working == {} && run.pending == {}
  {
    assert Held(run) == {};
    ResultsAreOutstanding(run);
    assert forall x | x in run.working :: x in run.outstanding;
  }

  /** Shared capacity: provider calls in flight over all runs never exceed MaxConcurrency. */
  lemma CapacityRespected(max: nat, actions: seq<Action>)
    requires max > 0 && IsTrace(Init(max), actions)
    ensures Sum(Busy, After(Init(max), actions).runs) <= max
  {
    InitInv(max);
    TraceInv(Init(max), actions);
    MaxStaysOver(Init(max), actions);
  }

  /**
   * No lost wake-up: a parked scheduler without a wake token, with a slot free and queued work on a
   * registered runner, is always still owed a notify by somebody.
   */
  lemma NoLostWakeup(max: nat, actions: seq<Action>, r: nat)
    requires max > 0 && IsTrace(Init(max), actions)
    requires var s := After(Init(max), actions);
      s.sched.Parked? && !s.wake && s.sem < s.max && r in s.registered && IsRun(s, r) && s.runs[r].queue != []
    ensures var s := After(Init(max), actions);
      s.owing > 0 || exists q: nat :: IsRun(s, q) && s.runs[q].enq.OwesNotify?
  {
    InitInv(max);
    TraceInv(Init(max), actions);
    assert !Quiet(After(Init(max), actions));
  }

  /** Never two live runs of one session, and a live run is the one the registry finds. */
  lemma OneRunPerSession(max: nat, actions: seq<Action>, q: nat, r: nat)
    requires max > 0 && IsTrace(Init(max), actions)
    requires var s := After(Init(max), actions);
      IsRun(s, q) && IsRun(s, r) && |s.session| == |s.runs| && s.session[q] == s.session[r] && !Gone(s.runs[q]) && !Gone(s.runs[r])
    ensures q == r
  {
    InitInv(max);
    TraceInv(Init(max), actions);
  }

  // ------------------------------------------------------------------ the drain

  /** Shutdown has closed the registry and beginStop reached every run that is not done. */
  ghost predicate Draining(s: Sys) {
    s.closed && forall r | 0 <= r < |s.runs| && !s.runs[r].loop.Done? :: s.runs[r].stopping
  }

  /** A step of the service's own, neither a heartbeat nor a request from outside. */
  predicate DrainAction(a: Action) {
    !a.Start? && !a.Push? && !a.Beat? && !a.StopRun? && !a.Shutdown?
  }

  ghost predicate AllDone(s: Sys) {
    forall r | 0 <= r < |s.runs| :: s.runs[r].loop.Done?
  }

  function LoopRank(loop: LoopPc): nat {
    match loop
    case Done => 0
    case Leaving => 1
    case Exiting => 2
    case Waiting => 0
    case CheckPending => 3
    case CheckOutstanding => 4
    case CheckQueue => 5
    case Flushing => 6
    case Top => 7
    case EmitCheck => 8
    case Emitting => 9
  }

  function EnqueueRank(enq: EnqueuePc): nat {
    match enq
    case Idle => 0
    case OwesNotify => 2
    case Send(_) => 20
    case DropOldest(_) => 21
    case TrySend(_) => 22
  }

  /** Work left in a run: every stage a chunk still has to go through costs more than the next one. */
  function Work(run: Run): nat {
    EnqueueRank(run.enq) + 17 * |run.queue| + 16 * |run.working| + 12 * |run.results| + 2 * |run.pending|
    + (if run.flushed then 0 else 23) + (if run.stopWake then 8 else 0) + LoopRank(run.loop)
  }

  function TotalWork(s: Sys): nat {
    Sum(Work, s.runs) + 3 * s.releasing + 2 * s.owing + (if s.wake then 1 else 0)
  }

  /** Steps the scheduler can still take before it parks or dispatches. */
  ghost function ScanLeft(s: Sys): nat
    requires SchedulerInv(s)
  {
    match s.sched
    case Parked => 0
    case Surrender => 1
    case Scan(i) => |s.registered| - i + 2
    case Acquire => |s.registered| + 3
  }

  lemma LoopWorkFalls(run: Run, tail: bool)
    requires run.stopping && LoopEnabled(run)
    ensures Work(LoopStep(run, tail)) < Work(run)
  {
  }

  lemma EnqueueWorkFalls(run: Run)
    requires EnqueueEnabled(run)
    ensures Work(EnqueueStep(run)) < Work(run)
  {
  }

  lemma ReceiveWorkFalls(run: Run)
    requires ReceiveEnabled(run)
    ensures Work(Receive(run)) < Work(run)
  {
  }

  lemma OwnWorkFalls(s: Sys, a: Action)
    requires Draining(s) && Enabled(s, a)
    requires a.Enqueue? || a.Loop? || a.ReceiveResult? || a.NoticeStop?
    ensures TotalWork(Apply(s, a)) < TotalWork(s)
  {
    var run := s.runs[a.r];
    match a {
      case Enqueue(_) => EnqueueWorkFalls(run);
      case Loop(_, tail) => LoopWorkFalls(run, tail);
      case ReceiveResult(_) => ReceiveWorkFalls(run);
      case NoticeStop(_) =>
    }
    SumUpdate(Work, s.runs, a.r, RunStep(run, a));
  }

  lemma HandOverWorkFalls(s: Sys, a: Action)
    requires Enabled(s, a) && (a.NotifyEnqueued? || a.Unregister? || a.Leave?)
    ensures TotalWork(Apply(s, a)) < TotalWork(s)
  {
    match a {
      case NotifyEnqueued(r) => SumUpdate(Work, s.runs, r, s.runs[r].(enq := Idle));
      case Unregister(r) => SumUpdate(Work, s.runs, r, s.runs[r].(loop := Leaving));
      case Leave(r) => LeaveWorkFalls(s, r);
    }
  }

  lemma LeaveWorkFalls(s: Sys, r: nat)
    requires Enabled(s, Leave(r))
    ensures TotalWork(Apply(s, Leave(r))) < TotalWork(s)
  {
    SumUpdate(Work, s.runs, r, s.runs[r].(loop := Done));
  }

  lemma WorkerWorkFalls(s: Sys, a: Action)
    requires Enabled(s, a) && (a.Finish? || a.Release? || a.NotifyOwed?)
    ensures TotalWork(Apply(s, a)) < TotalWork(s)
  {
    if a.Finish? {
      SumUpdate(Work, s.runs, a.r, Deliver(s.runs[a.r], a.ch));
    }
  }

  lemma SchedulerWorkFalls(s: Sys)
    requires SysInv(s) && Enabled(s, Schedule)
    ensures SysInv(Apply(s, Schedule))
    ensures var s' := Apply(s, Schedule);
      TotalWork(s') < TotalWork(s) || (TotalWork(s') == TotalWork(s) && ScanLeft(s') < ScanLeft(s))
  {
    StepInv(s, Schedule);
    ScheduleRuns(s);
    if s.sched.Scan? && s.sched.i < |s.registered| {
      var r := ScanTarget(s, s.sched.i);
      if s.runs[r].queue != [] {
        PopWorkFalls(s.runs, r);
      }
    }
  }

  lemma PopWorkFalls(runs: seq<Run>, r: nat)
    requires r < |runs| && runs[r].queue != []
    ensures Sum(Work, runs[r := Pop(runs[r])]) < Sum(Work, runs)
  {
    SumUpdate(Work, runs, r, Pop(runs[r]));
  }

  /** Every step of a drain makes progress: work falls, or the scheduler gets closer to parking. */
  lemma DrainProgress(s: Sys, a: Action)
    requires SysInv(s) && Draining(s) && Enabled(s, a) && DrainAction(a)
    ensures SysInv(Apply(s, a))
    ensures var s' := Apply(s, a);
      TotalWork(s') < TotalWork(s) || (TotalWork(s') == TotalWork(s) && ScanLeft(s') < ScanLeft(s))
  {
    StepInv(s, a);
    if a.Schedule? {
      SchedulerWorkFalls(s);
    } else if a.Enqueue? || a.Loop? || a.ReceiveResult? || a.NoticeStop? {
      OwnWorkFalls(s, a);
    } else if a.NotifyEnqueued? || a.Unregister? || a.Leave? {
      HandOverWorkFalls(s, a);
    } else {
      WorkerWorkFalls(s, a);
    }
  }

  // ------------------------------------------------------------ never stuck early

  ghost predicate CanMove(s: Sys) {
    exists a :: DrainAction(a) && Enabled(s, a)
  }

  lemma Moves(s: Sys, a: Action)
    requires DrainAction(a) && Enabled(s, a)
    ensures CanMove(s)
  {
  }

  lemma SchedulerMoves(s: Sys)
    requires SchedulerInv(s) && SlotsInv(s) && (s.sched.Parked? ==> s.wake)
    ensures CanMove(s)
  {
    Moves(s, Schedule);
  }

  lemma EnqueuerMoves(s: Sys, r: nat)
    requires IsRun(s, r) && Control(s.runs[r]) && !s.runs[r].enq.Idle?
    ensures CanMove(s)
  {
    if s.runs[r].enq.OwesNotify? {
      Moves(s, NotifyEnqueued(r));
    } else {
      Moves(s, Enqueue(r));
    }
  }

  /** A dispatcher that is neither finished nor asleep in its select can step, or its enqueuer can. */
  lemma DispatcherMoves(s: Sys, r: nat)
    requires SchedulerInv(s) && SlotsInv(s) && RegistryInv(s) && IsRun(s, r) && Control(s.runs[r])
    requires !s.runs[r].loop.Done? && !s.runs[r].loop.Waiting?
    ensures CanMove(s)
  {
    var run := s.runs[r];
    if run.loop.Exiting? {
      Moves(s, Unregister(r));
    } else if run.loop.Leaving? {
      if s.sched.Scan? {
        SchedulerMoves(s);
      } else {
        Moves(s, Leave(r));
      }
    } else if LoopEnabled(run) {
      Moves(s, Loop(r, false));
    } else {
      EnqueuerMoves(s, r);
    }
  }

  lemma WorkerMoves(s: Sys, r: nat)
    requires SchedulerInv(s) && SlotsInv(s) && RegistryInv(s) && IsRun(s, r) && Inv(s.runs[r])
    requires s.runs[r].working != {} || s.runs[r].results != []
    ensures CanMove(s)
  {
    var run := s.runs[r];
    if run.loop.Done? {
      FinishedRunIsEmpty(run);
    }
    if !run.loop.Waiting? {
      DispatcherMoves(s, r);
    } else if run.results != [] {
      Moves(s, ReceiveResult(r));
    } else {
      var ch :| ch in run.working;
      Moves(s, Finish(r, ch));
    }
  }

  lemma {:induction false} SomeoneIsBusy(runs: seq<Run>)
    requires Sum(Busy, runs) > 0
    ensures exists r: nat :: r < |runs| && runs[r].working != {}
  {
    if runs[0].working == {} {
      SomeoneIsBusy(runs[1..]);
      var r: nat :| r < |runs[1..]| && runs[1..][r].working != {};
      assert runs[r + 1].working != {};
    }
  }

  /** Queued work gets moving: the scheduler runs, somebody wakes it, or all slots are busy. */
  lemma QueuedWorkMoves(s: Sys, r: nat)
    requires SysInv(s) && IsRun(s, r) && s.runs[r].queue != [] && !s.runs[r].loop.Done?
    ensures CanMove(s)
  {
    if !s.sched.Parked? || s.wake {
      SchedulerMoves(s);
    } else if s.owing > 0 {
      Moves(s, NotifyOwed);
    } else if s.releasing > 0 {
      Moves(s, Release);
    } else if q: nat :| q < |s.runs| && s.runs[q].enq.OwesNotify? {
      Moves(s, NotifyEnqueued(q));
    } else {
      assert Quiet(s);
      assert r in s.registered;
      SomeoneIsBusy(s.runs);
      var q: nat :| q < |s.runs| && s.runs[q].working != {};
      assert Inv(s.runs[q]);
      WorkerMoves(s, q);
    }
  }

  lemma NeverStuck(s: Sys)
    requires SysInv(s) && Draining(s) && !AllDone(s)
    ensures CanMove(s)
  {
    var r :| 0 <= r < |s.runs| && !s.runs[r].loop.Done?;
    var run := s.runs[r];
    assert Inv(run);
    if !run.loop.Waiting? {
      DispatcherMoves(s, r);
    } else if run.stopWake {
      Moves(s, NoticeStop(r));
    } else if run.queue != [] {
      QueuedWorkMoves(s, r);
    } else {
      assert run.outstanding[0] in run.outstanding;
      WorkerMoves(s, r);
    }
  }

  // ---------------------------------------------------------------- the theorem

  /** While draining nothing starts any more: every run refuses audio and the registry refuses runs. */
  lemma NothingStarts(s: Sys, a: Action)
    requires SysInv(s) && Draining(s) && Enabled(s, a)
    ensures DrainAction(a) || a.Beat? || a.StopRun?
    ensures forall r | 0 <= r < |s.runs| :: s.runs[r].stopping
  {
    forall r | 0 <= r < |s.runs|
      ensures s.runs[r].stopping
    {
      assert Inv(s.runs[r]);
    }
  }

  lemma DrainingKept(s: Sys, a: Action)
    requires SysInv(s) && Draining(s) && Enabled(s, a)
    ensures Draining(Apply(s, a)) && |Apply(s, a).registered| <= |s.registered|
  {
    NothingStarts(s, a);
    if OwnAction(a) {
      OwnStepLocal(s, a);
    } else {
      OtherStepDraining(s, a);
    }
  }

  lemma OtherStepDraining(s: Sys, a: Action)
    requires Draining(s) && Enabled(s, a) && DrainAction(a) && !OwnAction(a)
    ensures Draining(Apply(s, a)) && |Apply(s, a).registered| <= |s.registered|
  {
  }

  /** Another stop request to a stopping run changes nothing. */
  lemma StopAgain(s: Sys, r: nat)
    requires IsRun(s, r) && s.runs[r].stopping
    ensures Apply(s, StopRun(r)) == s
  {
    assert s.runs[r := s.runs[r]] == s.runs;
  }

  /** A heartbeat sends the dispatcher through its drain check once more. */
  lemma BeatCosts(s: Sys, r: nat)
    requires SysInv(s) && Enabled(s, Beat(r))
    ensures SysInv(Apply(s, Beat(r))) && StepsLeft(Apply(s, Beat(r))) == StepsLeft(s) + 7 * (|s.registered| + 4)
  {
    StepInv(s, Beat(r));
    var run := s.runs[r];
    SumUpdate(Work, s.runs, r, Heartbeat(run));
    BeatScale(TotalWork(s), |s.registered| + 4);
  }

  lemma BeatScale(work: nat, width: nat)
    ensures (work + 7) * width == work * width + 7 * width
  {
  }

  /** Steps a drain can still take: lexicographic in (work, scan), written as one number. */
  ghost function StepsLeft(s: Sys): nat
    requires SchedulerInv(s)
  {
    TotalWork(s) * (|s.registered| + 4) + ScanLeft(s)
  }

  lemma LexicographicFall(work: nat, width: nat, scan: nat, work': nat, width': nat, scan': nat)
    requires width' <= width && scan' < width' && scan < width
    requires work' < work || (work' == work && scan' < scan)
    ensures work' * width' + scan' < work * width + scan
  {
    assert work' * width' <= work' * width;
    if work' < work {
      assert (work' + 1) * width <= work * width;
    }
  }

  lemma StepsLeftFall(s: Sys, a: Action)
    requires SysInv(s) && Draining(s) && Enabled(s, a) && DrainAction(a)
    ensures SysInv(Apply(s, a)) && StepsLeft(Apply(s, a)) < StepsLeft(s)
  {
    DrainProgress(s, a);
    DrainingKept(s, a);
    FewerStepsLeft(s, Apply(s, a));
  }

  lemma FewerStepsLeft(s: Sys, s': Sys)
    requires SchedulerInv(s) && SchedulerInv(s') && |s'.registered| <= |s.registered|
    requires TotalWork(s') < TotalWork(s) || (TotalWork(s') == TotalWork(s) && ScanLeft(s') < ScanLeft(s))
    ensures StepsLeft(s') < StepsLeft(s)
  {
    LexicographicFall(TotalWork(s), |s.registered| + 4, ScanLeft(s), TotalWork(s'), |s'.registered| + 4, ScanLeft(s'));
  }

  function Beats(actions: seq<Action>): nat {
    if actions == [] then 0 else (if actions[0].Beat? then 1 else 0) + Beats(actions[1..])
  }

  function StopRequests(actions: seq<Action>): nat {
    if actions == [] then 0 else (if actions[0].StopRun? then 1 else 0) + StopRequests(actions[1..])
  }

  /** What a step of a drain leaves of a budget of steps, a heartbeat being worth `beat` more. */
  function Budget(a: Action, left: nat, beat: nat): int {
    if a.Beat? then left + beat else if a.StopRun? then left else left - 1
  }

  lemma DrainStep(s: Sys, a: Action, left: nat, n: nat)
    requires SysInv(s) && Draining(s) && Enabled(s, a) && StepsLeft(s) <= left && |s.registered| <= n
    ensures var s' := Apply(s, a);
      SysInv(s') && Draining(s') && StepsLeft(s') <= Budget(a, left, 7 * (n + 4)) && |s'.registered| <= n
  {
    NothingStarts(s, a);
    DrainingKept(s, a);
    if a.Beat? {
      BeatCosts(s, a.r);
    } else if a.StopRun? {
      StopAgain(s, a.r);
    } else {
      StepsLeftFall(s, a);
    }
  }

  /** How long a drain can get with so many steps left, so many runners, and these heartbeats and stop requests. */
  function Allowance(left: nat, n: nat, actions: seq<Action>): nat {
    left + StopRequests(actions) + Beats(actions) * (1 + 7 * (n + 4))
  }

  /** Whatever happens during a drain, each heartbeat allows only so many further steps. */
  lemma {:induction false} DrainIsBounded(s: Sys, actions: seq<Action>, left: nat, n: nat)
    requires SysInv(s) && Draining(s) && IsTrace(s, actions) && StepsLeft(s) <= left && |s.registered| <= n
    ensures SysInv(After(s, actions)) && Draining(After(s, actions))
    ensures |actions| <= Allowance(left, n, actions)
    decreases |actions|
  {
    if actions != [] {
      var rest, beat := actions[1..], 7 * (n + 4);
      DrainStep(s, actions[0], left, n);
      DrainIsBounded(Apply(s, actions[0]), rest, Budget(actions[0], left, beat), n);
      OneBeatMore(Beats(rest), 1 + beat);
    }
  }

  lemma OneBeatMore(beats: nat, cost: nat)
    ensures (beats + 1) * cost == beats * cost + cost
  {
  }

  /**
   * Once the registry is closed, every run still in it is in the snapshot; a run that has left it has drained. So when
   * the snapshot has been stopped no run escapes.
   */
  lemma SnapshotCoversLiveRuns(s: Sys)
    requires SysInv(s) && s.closed
    ensures forall r | 0 <= r < |s.runs| :: if Gone(s.runs[r]) then Drained(s.runs[r]) else r in s.snapshot
    ensures (forall r | r in s.snapshot && IsRun(s, r) :: s.runs[r].stopping) ==> Draining(s)
  {
    forall r | 0 <= r < |s.runs|
      ensures if Gone(s.runs[r]) then Drained(s.runs[r]) && s.runs[r].stopping else r in s.snapshot
    {
      assert Inv(s.runs[r]);
    }
  }

  /** Shutdown has closed the registry, and each run of its snapshot was asked to stop. */
  ghost predicate ClosedAndAsked(s: Sys, actions: seq<Action>) {
    s.closed && forall r | r in s.snapshot && IsRun(s, r) :: StopRun(r) in actions
  }

  /**
   * Shutdown returns. Once the registry is closed and each run of the snapshot was asked to stop, the service takes
   * boundedly many more steps for each heartbeat, whatever else is asked of it, and when it can take none of its own
   * every run is done and has emitted or dropped each chunk it ever got.
   */
  lemma ShutdownReturns(max: nat, actions: seq<Action>, rest: seq<Action>)
    requires max > 0 && IsTrace(Init(max), actions)
    requires ClosedAndAsked(After(Init(max), actions), actions) && IsTrace(After(Init(max), actions), rest)
    ensures var s := After(Init(max), actions);
      && SchedulerInv(s)
      && |rest| <= Allowance(StepsLeft(s), |s.registered|, rest)
    ensures IsTrace(Init(max), actions + rest)
    ensures var end := After(Init(max), actions + rest);
      !CanMove(end) ==>
        && AllDone(end)
        && forall r: nat | r < |end.runs| ::
             |end.runs[r].emitted| + |end.runs[r].dropped| == Produced(Init(max), actions + rest, r)
  {
    var s := After(Init(max), actions);
    ClosedIsDraining(max, actions);
    DrainIsBounded(s, rest, StepsLeft(s), |s.registered|);
    TraceConcat(Init(max), actions, rest);
    ShutdownEnds(max, actions + rest);
  }

  lemma ShutdownEnds(max: nat, actions: seq<Action>)
    requires max > 0 && IsTrace(Init(max), actions) && SysInv(After(Init(max), actions)) && Draining(After(Init(max), actions))
    ensures var end := After(Init(max), actions);
      !CanMove(end) ==>
        && AllDone(end)
        && forall r: nat | r < |end.runs| :: |end.runs[r].emitted| + |end.runs[r].dropped| == Produced(Init(max), actions, r)
  {
    if !CanMove(After(Init(max), actions)) {
      DrainEnds(After(Init(max), actions));
      AllAccounted(max, actions);
    }
  }

  lemma ClosedIsDraining(max: nat, actions: seq<Action>)
    requires max > 0 && IsTrace(Init(max), actions)
    requires ClosedAndAsked(After(Init(max), actions), actions)
    ensures SysInv(After(Init(max), actions)) && Draining(After(Init(max), actions))
  {
    InitInv(max);
    TraceInv(Init(max), actions);
    var s := After(Init(max), actions);
    forall r | r in s.snapshot && IsRun(s, r)
      ensures s.runs[r].stopping
    {
      StoppingIffAsked(Init(max), actions, r);
    }
    SnapshotCoversLiveRuns(s);
  }

  lemma DrainEnds(s: Sys)
    requires SysInv(s) && Draining(s) && !CanMove(s)
    ensures AllDone(s)
  {
    if !AllDone(s) {
      NeverStuck(s);
    }
  }

  lemma AllAccounted(max: nat, actions: seq<Action>)
    requires max > 0 && IsTrace(Init(max), actions) && AllDone(After(Init(max), actions))
    ensures var end := After(Init(max), actions);
      forall r: nat | r < |end.runs| :: |end.runs[r].emitted| + |end.runs[r].dropped| == Produced(Init(max), actions, r)
  {
    var end := After(Init(max), actions);
    forall r: nat | r < |end.runs|
      ensures |end.runs[r].emitted| + |end.runs[r].dropped| == Produced(Init(max), actions, r)
    {
      IdleAccountsForAll(max, actions, r);
    }
  }
}
