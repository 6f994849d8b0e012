/** Every step of the session service keeps its invariant, so every run of it has it throughout. */
module SessionInvariant {
  import opened Rings
  import opened RunSteps
  import opened RunInvariant
  import opened SessionSystem

  lemma {:induction false} SumUpdate(f: Run -> nat, runs: seq<Run>, r: nat, run: Run)
    requires r < |runs|
    ensures Sum(f, runs[r := run]) == Sum(f, runs) - f(runs[r]) + f(run)
  {
    if r > 0 {
      SumUpdate(f, runs[1..], r - 1, run);
      assert runs[r := run][1..] == runs[1..][r - 1 := run];
    } else {
      assert runs[0 := run][1..] == runs[1..];
    }
  }

  lemma {:induction false} SumAppend(f: Run -> nat, runs: seq<Run>, run: Run)
    ensures Sum(f, runs + [run]) == Sum(f, runs) + f(run)
  {
    if runs == [] {
      assert [run][1..] == [];
    } else {
      SumAppend(f, runs[1..], run);
      assert (runs + [run])[1..] == runs[1..] + [run];
    }
  }

  lemma RunsUpdate(runs: seq<Run>, r: nat, run: Run)
    requires RunsInv(runs) && r < |runs| && Inv(run)
    ensures RunsInv(runs[r := run])
  {
  }

  /** A step inside one run that neither ends it, nor hands work to a worker, nor makes work visible silently. */
  ghost predicate Local(before: Run, after: Run) {
    && Gone(after) == Gone(before) && after.loop.Done? == before.loop.Done?
    && |after.working| == |before.working|
    && (after.enq.OwesNotify? || (!before.enq.OwesNotify? && (before.queue == [] ==> after.queue == [])))
  }

  lemma LocalStepInv(s: Sys, r: nat, run: Run)
    requires SysInv(s) && IsRun(s, r) && Inv(run) && Local(s.runs[r], run)
    ensures SysInv(WithRun(s, r, run))
  {
    RunsUpdate(s.runs, r, run);
    LocalScheduling(s, r, run);
    SameRegistry(s, WithRun(s, r, run));
  }

  lemma LocalScheduling(s: Sys, r: nat, run: Run)
    requires SchedulingInv(s) && IsRun(s, r) && Local(s.runs[r], run)
    ensures SchedulingInv(WithRun(s, r, run))
  {
    var s' := WithRun(s, r, run);
    SumUpdate(Busy, s.runs, r, run);
    if Quiet(s') {
      QuietBefore(s, r, run);
    }
    SameTargets(s, s');
  }

  lemma SameRegistry(s: Sys, s': Sys)
    requires RegistryInv(s)
    requires s'.session == s.session && s'.active == s.active && s'.closed == s.closed && s'.snapshot == s.snapshot
    requires |s'.runs| == |s.runs| && forall r | 0 <= r < |s.runs| :: Gone(s'.runs[r]) == Gone(s.runs[r])
    ensures RegistryInv(s')
  {
  }

  lemma SameTargets(s: Sys, s': Sys)
    requires s'.registered == s.registered && s'.next == s.next
    ensures forall k | 0 <= k < |s.registered| :: ScanTarget(s', k) == ScanTarget(s, k)
  {
  }

  lemma QuietBefore(s: Sys, r: nat, run: Run)
    requires IsRun(s, r) && Quiet(WithRun(s, r, run))
    requires run.enq.OwesNotify? || !s.runs[r].enq.OwesNotify?
    ensures Quiet(s)
  {
    var s' := WithRun(s, r, run);
    forall q | 0 <= q < |s.runs|
      ensures !s.runs[q].enq.OwesNotify?
    {
      assert !s'.runs[q].enq.OwesNotify?;
    }
  }

  lemma StartRegistry(s: Sys, session: string)
    requires RegistryInv(s) && Enabled(s, Start(session))
    ensures RegistryInv(Apply(s, Start(session)))
  {
    var s' := Apply(s, Start(session));
    forall name | name in s'.active
      ensures s'.active[name] < |s'.runs| && s'.session[s'.active[name]] == name && !Gone(s'.runs[s'.active[name]])
    {
      if name != session {
        assert name in s.active && s'.active[name] == s.active[name];
      }
    }
    forall r | 0 <= r < |s'.runs| && !Gone(s'.runs[r])
      ensures s'.session[r] in s'.active && s'.active[s'.session[r]] == r
    {
      if r < |s.runs| {
        assert s'.runs[r] == s.runs[r] && s'.session[r] == s.session[r];
      }
    }
  }

  lemma StartScheduling(s: Sys, session: string)
    requires SchedulingInv(s) && Enabled(s, Start(session))
    ensures SchedulingInv(Apply(s, Start(session)))
  {
    var s' := Apply(s, Start(session));
    SumAppend(Busy, s.runs, NewRun);
    assert Busy(NewRun) == 0;
    assert forall r :: r in s'.registered <==> r in s.registered || r == |s.runs|;
    forall r | 0 <= r < |s'.runs| && !s'.runs[r].loop.Done?
      ensures r in s'.registered
    {
      assert r < |s.runs| ==> s'.runs[r] == s.runs[r];
    }
    forall i | 0 <= i < |s.registered|
      ensures s'.registered[i] == s.registered[i] && s.registered[i] < |s.runs|
    {
      assert s.registered[i] in s.registered;
    }
    assert !Quiet(s');
  }

  lemma NotifyEnqueuedScheduling(s: Sys, r: nat)
    requires SchedulingInv(s) && Enabled(s, NotifyEnqueued(r))
    ensures SchedulingInv(Apply(s, NotifyEnqueued(r)))
  {
    SumUpdate(Busy, s.runs, r, s.runs[r].(enq := Idle));
  }

  lemma ShutdownInv(s: Sys)
    requires SysInv(s) && Enabled(s, Shutdown)
    ensures SysInv(Apply(s, Shutdown))
  {
    var s' := Apply(s, Shutdown);
    forall r | 0 <= r < |s.runs| && !Gone(s.runs[r])
      ensures r in s'.snapshot
    {
      assert s.session[r] in s.active.Keys && s.active[s.session[r]] == r;
    }
    assert Quiet(s') ==> Quiet(s);
    SameTargets(s, s');
  }

  lemma UnregisterRegistry(s: Sys, r: nat)
    requires RegistryInv(s) && Enabled(s, Unregister(r))
    ensures RegistryInv(Apply(s, Unregister(r)))
  {
    var s' := Apply(s, Unregister(r));
    assert !Gone(s.runs[r]);
    assert s'.active == s.active - {s.session[r]};
    forall q | 0 <= q < |s'.runs| && !Gone(s'.runs[q])
      ensures s'.session[q] in s'.active && s'.active[s'.session[q]] == q
    {
      assert !Gone(s.runs[q]);
      assert s.active[s.session[q]] == q;
    }
  }

  lemma UnregisterScheduling(s: Sys, r: nat)
    requires SchedulingInv(s) && Enabled(s, Unregister(r))
    ensures SchedulingInv(Apply(s, Unregister(r)))
  {
    LeavingScheduling(s, r);
    SameTargets(WithRun(s, r, s.runs[r].(loop := Leaving)), Apply(s, Unregister(r)));
  }

  lemma LeavingScheduling(s: Sys, r: nat)
    requires SchedulingInv(s) && Enabled(s, Unregister(r))
    ensures SchedulingInv(WithRun(s, r, s.runs[r].(loop := Leaving)))
  {
    var run := s.runs[r].(loop := Leaving);
    SumUpdate(Busy, s.runs, r, run);
    if Quiet(WithRun(s, r, run)) {
      QuietBefore(s, r, run);
    }
    SameTargets(s, WithRun(s, r, run));
  }

  lemma {:induction false} WithoutKeepsOthers(ids: seq<nat>, r: nat)
    requires forall i, j | 0 <= i < j < |ids| :: ids[i] != ids[j]
    ensures var kept := Without(ids, r);
      && (forall i, j | 0 <= i < j < |kept| :: kept[i] != kept[j])
      && (forall x :: x in kept <==> x in ids && x != r)
  {
    if ids != [] {
      assert ids == [ids[0]] + ids[1..];
      if ids[0] != r {
        WithoutKeepsOthers(ids[1..], r);
        var rest := Without(ids[1..], r);
        assert forall i | 0 <= i < |rest| :: rest[i] in rest && rest[i] in ids[1..];
      }
    }
  }

  lemma LeaveScheduling(s: Sys, r: nat)
    requires SchedulingInv(s) && Enabled(s, Leave(r))
    ensures SchedulingInv(Apply(s, Leave(r)))
  {
    var s' := Apply(s, Leave(r));
    var run := s.runs[r].(loop := Done);
    SumUpdate(Busy, s.runs, r, run);
    WithoutKeepsOthers(s.registered, r);
    if Quiet(s') {
      QuietBefore(s, r, run);
    }
  }

  lemma FinishScheduling(s: Sys, r: nat, ch: nat)
    requires SchedulingInv(s) && Enabled(s, Finish(r, ch))
    ensures SchedulingInv(Apply(s, Finish(r, ch)))
  {
    var s' := Apply(s, Finish(r, ch));
    var run := Deliver(s.runs[r], ch);
    SumUpdate(Busy, s.runs, r, run);
    if Quiet(s') {
      QuietBefore(s, r, run);
    }
    SameTargets(s, s');
  }

  /** A scan that went all the way round has looked at every registered runner. */
  lemma ScannedAll(s: Sys)
    requires SchedulerInv(s)
    requires forall k | 0 <= k < |s.registered| :: s.runs[ScanTarget(s, k)].queue == []
    ensures AllQueuesEmpty(s)
  {
    var n := |s.registered|;
    forall p | 0 <= p < n
      ensures s.registered[p] in s.registered && s.runs[s.registered[p]].queue == []
    {
      AtDistance(s.next, p, n);
      assert ScanTarget(s, Distance(s.next, p, n)) == s.registered[p];
    }
  }

  lemma ScanScheduling(s: Sys)
    requires SchedulingInv(s) && Enabled(s, Schedule) && s.sched.Scan?
    requires s.sched.i < |s.registered| && s.runs[ScanTarget(s, s.sched.i)].queue != [] ==>
      s.runs[ScanTarget(s, s.sched.i)].queue[0] !in s.runs[ScanTarget(s, s.sched.i)].working
    ensures SchedulingInv(Apply(s, Schedule))
  {
    var s' := Apply(s, Schedule);
    var i := s.sched.i;
    if i == |s.registered| {
      if Quiet(s') {
        assert Quiet(s);
        ScannedAll(s);
      }
    } else {
      var r := ScanTarget(s, i);
      if s.runs[r].queue == [] {
        assert Quiet(s') ==> Quiet(s);
        SameTargets(s, s');
      } else {
        SumUpdate(Busy, s.runs, r, Pop(s.runs[r]));
      }
    }
  }

  lemma ScheduleScheduling(s: Sys)
    requires SchedulingInv(s) && Enabled(s, Schedule) && !s.sched.Scan?
    ensures SchedulingInv(Apply(s, Schedule))
  {
    var s' := Apply(s, Schedule);
    assert Quiet(s') ==> s.sched.Parked? || Quiet(s);
  }

  lemma ScheduleRuns(s: Sys)
    requires RunsInv(s.runs) && SchedulerInv(s) && Enabled(s, Schedule)
    ensures RunsInv(Apply(s, Schedule).runs)
    ensures s.sched.Scan? && s.sched.i < |s.registered| && s.runs[ScanTarget(s, s.sched.i)].queue != [] ==>
              s.runs[ScanTarget(s, s.sched.i)].queue[0] !in s.runs[ScanTarget(s, s.sched.i)].working
  {
    if s.sched.Scan? && s.sched.i < |s.registered| && s.runs[ScanTarget(s, s.sched.i)].queue != [] {
      var run := s.runs[ScanTarget(s, s.sched.i)];
      PopInv(run);
      RunsUpdate(s.runs, ScanTarget(s, s.sched.i), Pop(run));
      QueuedNotWorking(run);
    }
  }

  lemma ScheduleInv(s: Sys)
    requires SysInv(s) && Enabled(s, Schedule)
    ensures SysInv(Apply(s, Schedule))
  {
    ScheduleRuns(s);
    if s.sched.Scan? {
      ScanScheduling(s);
    } else {
      ScheduleScheduling(s);
    }
    ScheduleRegistry(s);
  }

  lemma ScheduleRegistry(s: Sys)
    requires RegistryInv(s) && Enabled(s, Schedule)
    ensures RegistryInv(Apply(s, Schedule))
  {
    ScheduleKeepsGone(s);
    SameRegistry(s, Apply(s, Schedule));
  }

  lemma ScheduleKeepsGone(s: Sys)
    requires Enabled(s, Schedule)
    ensures var s' := Apply(s, Schedule);
      && s'.session == s.session && s'.active == s.active && s'.closed == s.closed && s'.snapshot == s.snapshot
      && |s'.runs| == |s.runs| && forall r | 0 <= r < |s.runs| :: Gone(s'.runs[r]) == Gone(s.runs[r])
  {
  }

  lemma QueuedNotWorking(run: Run)
    requires Inv(run) && run.queue != []
    ensures run.queue[0] !in run.working
  {
    assert run.queue[0] in run.queue;
  }

  lemma ReleaseScheduling(s: Sys, a: Action)
    requires SchedulingInv(s) && Enabled(s, a) && (a.Release? || a.NotifyOwed?)
    ensures SchedulingInv(Apply(s, a))
  {
    assert !Quiet(Apply(s, a));
  }

  /** What an action of one run's own goroutines makes of that run. */
  ghost function RunStep(run: Run, a: Action): Run
    requires OwnAction(a)
    requires a.Enqueue? ==> EnqueueEnabled(run)
    requires a.Loop? ==> LoopEnabled(run)
    requires a.ReceiveResult? ==> ReceiveEnabled(run)
  {
    match a
    case Push(_) => StartEnqueue(run)
    case Enqueue(_) => EnqueueStep(run)
    case StopRun(_) => BeginStop(run)
    case Loop(_, tail) => LoopStep(run, tail)
    case ReceiveResult(_) => Receive(run)
    case NoticeStop(_) => StopWake(run)
    case Beat(_) => Heartbeat(run)
  }

  predicate OwnAction(a: Action) {
    a.Push? || a.Enqueue? || a.StopRun? || a.Loop? || a.ReceiveResult? || a.NoticeStop? || a.Beat?
  }

  lemma RunStepInv(s: Sys, a: Action)
    requires OwnAction(a) && Enabled(s, a) && Inv(s.runs[a.r])
    ensures Inv(RunStep(s.runs[a.r], a))
  {
    var run := s.runs[a.r];
    match a {
      case Push(_) => StartEnqueueInv(run);
      case Enqueue(_) => EnqueueStepInv(run);
      case StopRun(_) => BeginStopInv(run);
      case Loop(_, tail) => LoopStepInv(run, tail);
      case ReceiveResult(_) => ReceiveInv(run);
      case NoticeStop(_) => StopWakeInv(run);
      case Beat(_) => HeartbeatInv(run);
    }
  }

  lemma OwnStepLocal(s: Sys, a: Action)
    requires OwnAction(a) && Enabled(s, a)
    ensures Local(s.runs[a.r], RunStep(s.runs[a.r], a))
    ensures Apply(s, a) == WithRun(s, a.r, RunStep(s.runs[a.r], a))
  {
    RunStepLocal(s.runs[a.r], a);
  }

  lemma RunStepLocal(run: Run, a: Action)
    requires OwnAction(a)
    requires a.Push? ==> !run.enq.OwesNotify?
    requires a.Enqueue? ==> EnqueueEnabled(run)
    requires a.Loop? ==> LoopEnabled(run)
    requires a.ReceiveResult? ==> ReceiveEnabled(run)
    requires a.NoticeStop? || a.Beat? ==> run.loop.Waiting?
    ensures Local(run, RunStep(run, a))
  {
  }

  lemma OwnActionInv(s: Sys, a: Action)
    requires SysInv(s) && Enabled(s, a) && OwnAction(a)
    ensures SysInv(Apply(s, a))
  {
    OwnStepLocal(s, a);
    RunStepInv(s, a);
    LocalStepInv(s, a.r, RunStep(s.runs[a.r], a));
  }

  lemma ReplaceRuns(s: Sys, a: Action)
    requires RunsInv(s.runs) && Enabled(s, a) && (a.NotifyEnqueued? || a.Leave? || a.Finish?)
    ensures RunsInv(Apply(s, a).runs)
  {
    match a {
      case NotifyEnqueued(r) => NotifiedInv(s.runs[r]); RunsUpdate(s.runs, r, s.runs[r].(enq := Idle));
      case Leave(r) => LeaveInv(s.runs[r], Done); RunsUpdate(s.runs, r, s.runs[r].(loop := Done));
      case Finish(r, ch) => DeliverInv(s.runs[r], ch); RunsUpdate(s.runs, r, Deliver(s.runs[r], ch));
    }
  }

  lemma MembershipInv(s: Sys, a: Action)
    requires SysInv(s) && Enabled(s, a) && (a.Start? || a.Unregister? || a.Leave? || a.Shutdown?)
    ensures SysInv(Apply(s, a))
  {
    match a {
      case Shutdown => ShutdownInv(s);
      case Start(session) => NewRunInv(); StartRegistry(s, session); StartScheduling(s, session);
      case Unregister(r) =>
        LeaveInv(s.runs[r], Leaving);
        RunsUpdate(s.runs, r, s.runs[r].(loop := Leaving));
        UnregisterRegistry(s, r);
        UnregisterScheduling(s, r);
      case Leave(r) => ReplaceRuns(s, a); SameRegistry(s, Apply(s, a)); LeaveScheduling(s, r);
    }
  }

  lemma SlotInv(s: Sys, a: Action)
    requires SysInv(s) && Enabled(s, a) && (a.Finish? || a.Release? || a.NotifyOwed? || a.NotifyEnqueued?)
    ensures SysInv(Apply(s, a))
  {
    match a {
      case Finish(r, ch) => ReplaceRuns(s, a); FinishScheduling(s, r, ch);
      case NotifyEnqueued(r) => ReplaceRuns(s, a); NotifyEnqueuedScheduling(s, r);
      case Release => ReleaseScheduling(s, a);
      case NotifyOwed => ReleaseScheduling(s, a);
    }
    SameRegistry(s, Apply(s, a));
  }

  /** Every step of every goroutine keeps the invariant. */
  lemma StepInv(s: Sys, a: Action)
    requires SysInv(s) && Enabled(s, a)
    ensures SysInv(Apply(s, a))
  {
    if a.Schedule? {
      ScheduleInv(s);
    } else if OwnAction(a) {
      OwnActionInv(s, a);
    } else if a.Start? || a.Unregister? || a.Leave? || a.Shutdown? {
      MembershipInv(s, a);
    } else {
      SlotInv(s, a);
    }
  }

  lemma InitInv(max: nat)
    requires max > 0
    ensures SysInv(Init(max))
  {
  }
}
