/**
 * Round-robin fairness of the shared scheduler under any interleaving: while the scan goes on, queues fill, chunks
 * drop and workers finish, and still no run with queued work is passed over more often than there are other runs.
 */
module SessionFairness {
  import opened Rings
  import opened RunSteps
  import opened SessionSystem
  import opened SessionInvariant
  import opened SessionDrain

  /** The scheduler pops a chunk in this step. */
  predicate IsTake(s: Sys, a: Action) {
    a.Schedule? && s.sched.Scan? && s.sched.i < |s.registered| && s.next < |s.registered|
    && var r := ScanTarget(s, s.sched.i); r < |s.runs| && s.runs[r].queue != []
  }

  ghost function Takes(s: Sys, actions: seq<Action>): nat
    requires IsTrace(s, actions)
    decreases |actions|
  {
    if actions == [] then 0 else
    (if IsTake(s, actions[0]) then 1 else 0) + Takes(Apply(s, actions[0]), actions[1..])
  }

  /** The set of runs does not change, the queue at position p never runs empty, and the scheduler never serves it. */
  ghost predicate Bypasses(s: Sys, actions: seq<Action>, p: nat)
    requires IsTrace(s, actions)
    decreases |actions|
  {
    actions != [] ==>
      && !actions[0].Start? && !actions[0].Leave? && PassesOver(s, actions[0], p)
      && Bypasses(Apply(s, actions[0]), actions[1..], p)
  }

  ghost predicate PassesOver(s: Sys, a: Action, p: nat) {
    && p < |s.registered| && IsRun(s, s.registered[p]) && s.runs[s.registered[p]].queue != []
    && !(IsTake(s, a) && At(s.next, s.sched.i, |s.registered|) == p)
  }

  /** How many other runs can still be served before the one at position p, the rest of the current scan included. */
  function TurnsAhead(s: Sys, p: nat): (turns: int)
    requires s.next < |s.registered| && p < |s.registered|
    requires s.sched.Scan? ==> s.sched.i <= |s.registered|
    ensures 0 <= turns < |s.registered|
  {
    var n, d := |s.registered|, Distance(s.next, p, |s.registered|);
    if s.sched.Scan? && d < s.sched.i then d + n - s.sched.i else d
  }

  /** Each step of the scheduler brings the run's turn closer, and nothing else moves it away. */
  lemma TurnComesCloser(s: Sys, a: Action, p: nat)
    requires SchedulerInv(s) && Enabled(s, a) && !a.Start? && !a.Leave? && PassesOver(s, a, p)
    ensures var s' := Apply(s, a);
      && s'.registered == s.registered && s'.next < |s.registered| && (s'.sched.Scan? ==> s'.sched.i <= |s.registered|)
      && TurnsAhead(s', p) + (if IsTake(s, a) then 1 else 0) <= TurnsAhead(s, p)
  {
    if a.Schedule? && s.sched.Scan? && s.sched.i < |s.registered| {
      ScanComesCloser(s, p);
    }
  }

  lemma ScanComesCloser(s: Sys, p: nat)
    requires SchedulerInv(s) && Enabled(s, Schedule) && PassesOver(s, Schedule, p)
    requires s.sched.Scan? && s.sched.i < |s.registered|
    ensures var s' := Apply(s, Schedule);
      && s'.registered == s.registered && s'.next < |s.registered| && (s'.sched.Scan? ==> s'.sched.i <= |s.registered|)
      && TurnsAhead(s', p) + (if IsTake(s, Schedule) then 1 else 0) <= TurnsAhead(s, p)
  {
    AtDistance(s.next, p, |s.registered|);
    if IsTake(s, Schedule) {
      AfterTake(s);
      BehindTheServed(s.next, s.sched.i, p, |s.registered|);
    } else {
      AfterLook(s);
    }
  }

  lemma AfterTake(s: Sys)
    requires Enabled(s, Schedule) && IsTake(s, Schedule)
    ensures var s', n := Apply(s, Schedule), |s.registered|;
      s'.registered == s.registered && s'.sched == Acquire && s'.next == (At(s.next, s.sched.i, n) + 1) % n
  {
  }

  lemma AfterLook(s: Sys)
    requires Enabled(s, Schedule) && s.sched.Scan? && s.sched.i < |s.registered| && s.next < |s.registered| && !IsTake(s, Schedule)
    ensures Apply(s, Schedule) == s.(sched := Scan(s.sched.i + 1))
  {
  }

  /** With the cursor moved behind the i-th position, p stands i + 1 positions nearer, or almost a round away. */
  lemma BehindTheServed(next: nat, i: nat, p: nat, n: nat)
    requires next < n && i < n && p < n && At(next, i, n) != p
    ensures var d := Distance(next, p, n);
      Distance((At(next, i, n) + 1) % n, p, n) == if i < d then d - i - 1 else d + n - i - 1
  {
    RingPosition(next, i, n);
    NextPosition(At(next, i, n), n);
  }

  /**
   * Bounded bypass: between changes of the set of n runs, a run whose queue stays non-empty is served before the
   * scheduler has served others n times; with no scan under way, or one that has not passed it, after no more than
   * the runs between the cursor and itself.
   */
  lemma {:induction false} BoundedBypass(s: Sys, actions: seq<Action>, p: nat)
    requires SysInv(s) && IsTrace(s, actions) && Bypasses(s, actions, p) && p < |s.registered|
    ensures Takes(s, actions) <= TurnsAhead(s, p) < |s.registered|
    decreases |actions|
  {
    if actions != [] {
      StepInv(s, actions[0]);
      TurnComesCloser(s, actions[0], p);
      BoundedBypass(Apply(s, actions[0]), actions[1..], p);
    }
  }

  // ------------------------------------------------------------ a scan nobody interrupts

  /** The scheduler goroutine alone, from inside take until it returns. */
  ghost function ScanAlone(s: Sys): Sys
    requires SchedulerInv(s)
    decreases if s.sched.Scan? then |s.registered| + 1 - s.sched.i else 0
  {
    if !s.sched.Scan? then s
    else if s.sched.i == |s.registered| || s.runs[ScanTarget(s, s.sched.i)].queue != [] then ScheduleStep(s)
    else ScanAlone(ScheduleStep(s))
  }

  ghost function ReadyRuns(s: Sys): (ready: seq<bool>)
    requires SchedulerInv(s)
  {
    seq(|s.registered|, p requires 0 <= p < |s.registered| => RunAt(s, p).queue != [])
  }

  /** popQueued, which leaves an empty queue alone. */
  function PopIfAny(run: Run): Run { if run.queue == [] then run else Pop(run) }

  ghost function RunAt(s: Sys, p: nat): Run
    requires SchedulerInv(s) && p < |s.registered|
  {
    assert s.registered[p] in s.registered;
    s.runs[s.registered[p]]
  }

  /** after is s with the chunk of the first ready run popped, or with the scan given up because there is none. */
  ghost predicate TookFirstReady(s: Sys, after: Sys)
    requires SchedulerInv(s)
  {
    var ready, n := ReadyRuns(s), |s.registered|;
    if forall p | 0 <= p < n :: !ready[p] then after == s.(sched := Surrender)
    else exists pos: nat :: pos < n && s.next < n && FirstReady(ready, s.next, pos) && after == PoppedAt(s, pos)
  }

  ghost function PoppedAt(s: Sys, pos: nat): Sys
    requires SchedulerInv(s) && pos < |s.registered|
  {
    assert s.registered[pos] in s.registered;
    WithRun(s, s.registered[pos], PopIfAny(RunAt(s, pos))).(next := (pos + 1) % |s.registered|, sched := Acquire)
  }

  /** Nothing before the i-th position from the cursor is ready. */
  ghost predicate NoneReadyBefore(s: Sys, i: nat)
    requires SchedulerInv(s) && i <= |s.registered|
  {
    forall k | 0 <= k < i :: !ReadyRuns(s)[At(s.next, k, |s.registered|)]
  }

  /** It does what take promises: it pops from the ready run nearest to the cursor, or finds that there is none. */
  lemma {:induction false} ScanAloneTakesFirstReady(s: Sys)
    requires SchedulerInv(s) && s.sched.Scan? && NoneReadyBefore(s, s.sched.i)
    ensures TookFirstReady(s, ScanAlone(s))
    decreases |s.registered| - s.sched.i
  {
    var i := s.sched.i;
    if i == |s.registered| {
      RoundDone(s);
    } else if s.runs[ScanTarget(s, i)].queue != [] {
      FoundReady(s);
    } else {
      LookFurther(s);
      ScanAloneTakesFirstReady(ScheduleStep(s));
      SameTake(s, ScheduleStep(s), ScanAlone(s));
    }
  }

  lemma RoundDone(s: Sys)
    requires SchedulerInv(s) && s.sched.Scan? && s.sched.i == |s.registered| && NoneReadyBefore(s, s.sched.i)
    ensures TookFirstReady(s, ScheduleStep(s))
  {
    if s.registered != [] {
      NoneReady(ReadyRuns(s), s.next);
    }
  }

  lemma FoundReady(s: Sys)
    requires SchedulerInv(s) && s.sched.Scan? && s.sched.i < |s.registered| && NoneReadyBefore(s, s.sched.i)
    requires s.runs[ScanTarget(s, s.sched.i)].queue != []
    ensures TookFirstReady(s, ScheduleStep(s))
  {
    var pos := At(s.next, s.sched.i, |s.registered|);
    assert ReadyRuns(s)[pos];
    FirstReadyAt(ReadyRuns(s), s.next, s.sched.i);
    PopIsPoppedAt(s);
  }

  lemma PopIsPoppedAt(s: Sys)
    requires SchedulerInv(s) && s.sched.Scan? && s.sched.i < |s.registered|
    requires s.runs[ScanTarget(s, s.sched.i)].queue != []
    ensures ScheduleStep(s) == PoppedAt(s, At(s.next, s.sched.i, |s.registered|))
  {
  }

  lemma LookFurther(s: Sys)
    requires SchedulerInv(s) && s.sched.Scan? && s.sched.i < |s.registered| && NoneReadyBefore(s, s.sched.i)
    requires s.runs[ScanTarget(s, s.sched.i)].queue == []
    ensures var s' := ScheduleStep(s);
      s' == s.(sched := Scan(s.sched.i + 1)) && SchedulerInv(s') && ReadyRuns(s') == ReadyRuns(s) && NoneReadyBefore(s', s.sched.i + 1)
  {
    var s' := ScheduleStep(s);
    assert ReadyRuns(s') == ReadyRuns(s);
    assert !ReadyRuns(s)[At(s.next, s.sched.i, |s.registered|)];
  }

  lemma SameTake(s: Sys, s': Sys, after: Sys)
    requires SchedulerInv(s) && SchedulerInv(s') && s' == s.(sched := s'.sched) && TookFirstReady(s', after)
    ensures TookFirstReady(s, after)
  {
    assert ReadyRuns(s') == ReadyRuns(s);
    forall pos: nat | pos < |s.registered|
      ensures PoppedAt(s', pos) == PoppedAt(s, pos)
    {
      assert RunAt(s', pos) == RunAt(s, pos);
    }
  }

  /** A run that leaves is taken off the list as the method Remove promises: nothing else moves but a cursor past the end. */
  lemma LeaveIsRemove(s: Sys, r: nat)
    requires SchedulerInv(s) && Enabled(s, Leave(r))
    ensures var s' := Apply(s, Leave(r));
      && (exists i :: 0 <= i < |s.registered| && s.registered[i] == r && s'.registered == s.registered[..i] + s.registered[i + 1..])
      && s'.next == if s.next >= |s'.registered| then 0 else s.next
  {
    assert r in s.registered;
    WithoutOne(s.registered, r);
  }

  lemma {:induction false} WithoutOne(ids: seq<nat>, r: nat)
    requires r in ids
    ensures exists i :: 0 <= i < |ids| && ids[i] == r && Without(ids, r) == ids[..i] + ids[i + 1..]
  {
    if ids[0] == r {
      assert Without(ids, r) == ids[..0] + ids[1..];
    } else {
      WithoutOne(ids[1..], r);
      var i :| 0 <= i < |ids[1..]| && ids[1..][i] == r && Without(ids[1..], r) == ids[1..][..i] + ids[1..][i + 1..];
      assert Without(ids, r) == ids[..i + 1] + ids[i + 2..];
      assert ids[i + 1] == r;
    }
  }
}
