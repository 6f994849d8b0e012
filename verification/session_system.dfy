/**
 * The whole session service: the registry, every run it started, the shared scheduler goroutine
 * with its slots and wake channel, and the workers, under any interleaving of atomic steps.
 */
module SessionSystem {
  import opened RunSteps
  import opened RunInvariant

  /** Where the scheduler goroutine stands; it holds scheduler.mu exactly while scanning. */
  datatype SchedPc =
    | Parked          // waiting for wake
    | Acquire         // dispatch, before taking a slot
    | Scan(i: nat)    // take, before looking at the i-th runner from the cursor
    | Surrender       // take found nothing, the slot goes back

  datatype Sys = Sys(
    max: nat,                    // MaxConcurrency
    runs: seq<Run>,              // every run ever started; a run is named by its position
    session: seq<string>,        // the session of each run
    active: map<string, nat>,    // Registry.runs
    closed: bool,
    snapshot: set<nat>,          // the runs Shutdown stops and waits for
    registered: seq<nat>,        // scheduler.runners
    next: nat,
    sem: nat,
    wake: bool,
    sched: SchedPc,
    releasing: nat,              // workers that delivered and still hold their slot
    owing: nat)                  // goroutines past an add or a slot release that still owe a notify

  function Init(max: nat): Sys {
    Sys(max, [], [], map[], false, {}, [], 0, 0, false, Acquire, 0, 0)
  }

  datatype Action =
    | Start(session: string)     // the critical section of Registry.Start that registers the run
    | Push(r: nat)               // a chunk leaves the chunker
    | Enqueue(r: nat)
    | NotifyEnqueued(r: nat)
    | StopRun(r: nat)            // beginStop
    | Shutdown                   // closed is set and the snapshot taken
    | Loop(r: nat, tail: bool)
    | ReceiveResult(r: nat)
    | NoticeStop(r: nat)
    | Beat(r: nat)
    | Unregister(r: nat)         // onDone, registry half
    | Leave(r: nat)              // onDone, scheduler half, and close(done)
    | Finish(r: nat, ch: nat)    // a worker delivers its result
    | Release                    // a worker frees its slot
    | NotifyOwed
    | Schedule                   // one step of the scheduler goroutine

  predicate IsRun(s: Sys, r: nat) { r < |s.runs| }

  /** The run at the i-th position counted from the scheduler's cursor. */
  function ScanTarget(s: Sys, i: nat): (r: nat)
    requires i < |s.registered|
    ensures r in s.registered
  {
    s.registered[(s.next + i) % |s.registered|]
  }

  ghost predicate Enabled(s: Sys, a: Action) {
    match a
    case Start(session) => !s.closed && session !in s.active && !s.sched.Scan?
    case Push(r) => IsRun(s, r) && !s.runs[r].stopping && s.runs[r].enq.Idle?
    case Enqueue(r) => IsRun(s, r) && EnqueueEnabled(s.runs[r])
    case NotifyEnqueued(r) => IsRun(s, r) && s.runs[r].enq.OwesNotify?
    case StopRun(r) => IsRun(s, r)
    case Shutdown => !s.closed
    case Loop(r, tail) => IsRun(s, r) && LoopEnabled(s.runs[r])
    case ReceiveResult(r) => IsRun(s, r) && ReceiveEnabled(s.runs[r])
    case NoticeStop(r) => IsRun(s, r) && StopWakeEnabled(s.runs[r])
    case Beat(r) => IsRun(s, r) && s.runs[r].loop.Waiting?
    case Unregister(r) => IsRun(s, r) && r < |s.session| && s.runs[r].loop.Exiting?
    case Leave(r) => IsRun(s, r) && s.runs[r].loop.Leaving? && !s.sched.Scan?
    case Finish(r, ch) => IsRun(s, r) && ch in s.runs[r].working && |s.runs[r].results| < s.max
    case Release => s.releasing > 0 && s.sem > 0
    case NotifyOwed => s.owing > 0
    case Schedule =>
      match s.sched {
        case Parked => s.wake
        case Acquire => true
        case Scan(i) => i == |s.registered| || (i < |s.registered| && IsRun(s, ScanTarget(s, i)))
        case Surrender => s.sem > 0
      }
  }

  function WithRun(s: Sys, r: nat, run: Run): Sys
    requires IsRun(s, r)
  {
    s.(runs := s.runs[r := run])
  }

  /** scheduler.remove: the list closes up, the cursor only moves when it fell off the end. */
  function RemoveRunner(s: Sys, r: nat): Sys {
    var kept := Without(s.registered, r);
    s.(registered := kept, next := if s.next >= |kept| then 0 else s.next)
  }

  function Without(ids: seq<nat>, r: nat): (kept: seq<nat>)
    ensures |kept| <= |ids|
  {
    if ids == [] then []
    else if ids[0] == r then ids[1..]
    else [ids[0]] + Without(ids[1..], r)
  }

  ghost function ScheduleStep(s: Sys): Sys
    requires Enabled(s, Schedule)
  {
    match s.sched
    case Parked => s.(wake := false, sched := Acquire)
    case Acquire => if s.sem < s.max then s.(sem := s.sem + 1, sched := Scan(0)) else s.(sched := Parked)
    case Scan(i) =>
      if i == |s.registered| then s.(sched := Surrender) else
      var r := ScanTarget(s, i);
      if s.runs[r].queue == [] then s.(sched := Scan(i + 1)) else
      WithRun(s, r, Pop(s.runs[r])).(next := ((s.next + i) % |s.registered| + 1) % |s.registered|, sched := Acquire)
    case Surrender => s.(sem := s.sem - 1, sched := Parked)
  }

  ghost function Apply(s: Sys, a: Action): Sys
    requires Enabled(s, a)
  {
    match a
    case Start(session) =>
      s.(runs := s.runs + [NewRun], session := s.session + [session], active := s.active[session := |s.runs|],
         registered := s.registered + [|s.runs|], owing := s.owing + 1)
    case Push(r) => WithRun(s, r, StartEnqueue(s.runs[r]))
    case Enqueue(r) => WithRun(s, r, EnqueueStep(s.runs[r]))
    case NotifyEnqueued(r) => WithRun(s, r, s.runs[r].(enq := Idle)).(wake := true)
    case StopRun(r) => WithRun(s, r, BeginStop(s.runs[r]))
    case Shutdown => s.(closed := true, snapshot := s.active.Values)
    case Loop(r, tail) => WithRun(s, r, LoopStep(s.runs[r], tail))
    case ReceiveResult(r) => WithRun(s, r, Receive(s.runs[r]))
    case NoticeStop(r) => WithRun(s, r, StopWake(s.runs[r]))
    case Beat(r) => WithRun(s, r, Heartbeat(s.runs[r]))
    case Unregister(r) =>
      var s' := WithRun(s, r, s.runs[r].(loop := Leaving));
      if s.session[r] in s.active && s.active[s.session[r]] == r then s'.(active := s.active - {s.session[r]}) else s'
    case Leave(r) => RemoveRunner(WithRun(s, r, s.runs[r].(loop := Done)), r)
    case Finish(r, ch) => WithRun(s, r, Deliver(s.runs[r], ch)).(releasing := s.releasing + 1)
    case Release => s.(sem := s.sem - 1, releasing := s.releasing - 1, owing := s.owing + 1)
    case NotifyOwed => s.(owing := s.owing - 1, wake := true)
    case Schedule => ScheduleStep(s)
  }

  // ------------------------------------------------------------------ invariant

  function Sum(f: Run -> nat, runs: seq<Run>): nat {
    if runs == [] then 0 else f(runs[0]) + Sum(f, runs[1..])
  }

  function Busy(run: Run): nat { |run.working| }

  /** The run is no longer in the registry. */
  predicate Gone(run: Run) { run.loop.Leaving? || run.loop.Done? }

  ghost predicate RegistryInv(s: Sys) {
    && |s.session| == |s.runs|
    && (forall name | name in s.active ::
          s.active[name] < |s.runs| && s.session[s.active[name]] == name && !Gone(s.runs[s.active[name]]))
    && (forall r | 0 <= r < |s.runs| && !Gone(s.runs[r]) :: s.session[r] in s.active && s.active[s.session[r]] == r)
    && (s.closed ==> forall r | 0 <= r < |s.runs| && !Gone(s.runs[r]) :: r in s.snapshot)
  }

  ghost predicate SchedulerInv(s: Sys) {
    && (forall i, j | 0 <= i < j < |s.registered| :: s.registered[i] != s.registered[j])
    && (forall r | r in s.registered :: r < |s.runs| && !s.runs[r].loop.Done?)
    && (forall r | 0 <= r < |s.runs| && !s.runs[r].loop.Done? :: r in s.registered)
    && (if s.registered == [] then s.next == 0 else s.next < |s.registered|)
    && (s.sched.Scan? ==> s.sched.i <= |s.registered|)
  }

  /** Slots in use are the workers inside a call, those about to release, and the scheduler's trial slot. */
  ghost predicate SlotsInv(s: Sys) {
    && 0 < s.max && s.sem <= s.max
    && s.sem == Sum(Busy, s.runs) + s.releasing + (if s.sched.Scan? || s.sched.Surrender? then 1 else 0)
  }

  /** No wake token is set and no goroutine is between making work or a slot available and its notify. */
  ghost predicate Quiet(s: Sys) {
    !s.wake && s.owing == 0 && forall r | 0 <= r < |s.runs| :: !s.runs[r].enq.OwesNotify?
  }

  ghost predicate AllQueuesEmpty(s: Sys)
    requires SchedulerInv(s)
  {
    forall r | r in s.registered :: s.runs[r].queue == []
  }

  /** What the scheduler has already seen stays seen unless somebody owes it a wake-up. */
  ghost predicate WakeInv(s: Sys)
    requires SchedulerInv(s)
  {
    Quiet(s) ==>
      && (s.sched.Parked? && s.sem < s.max ==> AllQueuesEmpty(s))
      && (s.sched.Surrender? ==> AllQueuesEmpty(s))
      && (s.sched.Scan? ==> forall k | 0 <= k < s.sched.i :: s.runs[ScanTarget(s, k)].queue == [])
  }

  ghost predicate SchedulingInv(s: Sys) {
    SchedulerInv(s) && SlotsInv(s) && WakeInv(s)
  }

  ghost predicate RunsInv(runs: seq<Run>) {
    forall r {:trigger Inv(runs[r])} | 0 <= r < |runs| :: Inv(runs[r])
  }

  ghost predicate SysInv(s: Sys) {
    RunsInv(s.runs) && RegistryInv(s) && SchedulingInv(s)
  }
}
