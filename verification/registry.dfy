/** The registry of active runs: services/pipeline/internal/session/registry.go. */
module Registries {
  import opened Options
  import opened Runners
  import opened Schedulers

  /** An entry of the runs map: the run's id and its runner. */
  datatype Active = Active(runId: string, runner: Runner)

  /** What Start answers. */
  datatype Started =
    | Running(runner: Runner)          // registered now, or before by a start with the same run id
    | AlreadyRunning(runId: string)
    | ShuttingDown
    | UnsupportedLanguage(code: string)
    | InvalidSource

  /** What a start request names; whether its source can be built is known only to the ingest code. */
  datatype Request = Request(runId: string, source: string, targets: seq<string>, sourceIsValid: bool)

  /** The source language if it is not in the table, and otherwise the first target that is not. */
  ghost predicate IsFirstUnsupported(request: Request, table: set<string>, code: string) {
    if request.source !in table then code == request.source
    else exists i :: IsFirstOutside(request.targets, table, i) && request.targets[i] == code
  }

  predicate IsFirstOutside(codes: seq<string>, table: set<string>, i: int) {
    0 <= i < |codes| && codes[i] !in table && forall k | 0 <= k < i :: codes[k] in table
  }

  /** The first language outside the provider's table, the source before the targets. */
  method ValidateLanguages(request: Request, table: set<string>) returns (bad: Option<string>)
    ensures bad == None <==> request.source in table && forall code | code in request.targets :: code in table
    ensures bad.Some? ==> IsFirstUnsupported(request, table, bad.value)
  {
    if request.source !in table {
      return Some(request.source);
    }
    for i := 0 to |request.targets|
      invariant forall k | 0 <= k < i :: request.targets[k] in table
    {
      if request.targets[i] !in table {
        assert IsFirstOutside(request.targets, table, i);
        return Some(request.targets[i]);
      }
    }
    return None;
  }

  class Registry {
    const sched: Scheduler
    var runs: map<string, Active>
    var closed: bool
    ghost var snapshot: set<Runner>    // the runs Shutdown stops and waits for

    constructor (maxConcurrency: nat)
      ensures Valid() && fresh(sched) && runs == map[] && !closed && sched.runners == []
    {
      sched := new Scheduler(maxConcurrency);
      runs, closed, snapshot := map[], false, {};
    }

    /** Every active run is scheduled, no runner is active twice, and once closed all are in the snapshot. */
    ghost predicate Valid()
      reads this, sched, sched.runners`queue, sched.runners`outstanding, sched.runners`pending
    {
      && sched.Valid()
      && (forall s | s in runs :: runs[s].runner in sched.runners)
      && NoneTwice()
      && (closed ==> forall s | s in runs :: runs[s].runner in snapshot)
    }

    /** The runners of the map. */
    ghost function ActiveSet(): set<Runner>
      reads this`runs
    {
      set s | s in runs :: runs[s].runner
    }

    ghost predicate NoneTwice()
      reads this`runs
    {
      forall s, t | s in runs && t in runs && s != t :: runs[s].runner != runs[t].runner
    }

    /** The first critical section of Start: an active run answers for the session. */
    method Check(session: string, runId: string) returns (answer: Option<Started>)
      requires Valid()
      ensures session !in runs ==> answer == None
      ensures session in runs ==>
        answer == Some(if runs[session].runId == runId then Running(runs[session].runner)
                       else AlreadyRunning(runs[session].runId))
    {
      if session in runs {
        var active := runs[session];
        if active.runId == runId {
          return Some(Running(active.runner));
        }
        return Some(AlreadyRunning(active.runId));
      }
      return None;
    }

    /** The second: others may have registered a run or closed the registry since the first. */
    method Register(session: string, runId: string, runner: Runner) returns (answer: Started)
      requires Valid() && runner.Valid() && runner !in sched.runners
      modifies this`runs, sched`runners, sched`wake
      ensures Valid()
      ensures answer.Running? <==> !old(closed) && session !in old(runs)
      ensures answer.Running? ==>
        && answer.runner == runner && runs == old(runs)[session := Active(runId, runner)]
        && sched.runners == old(sched.runners) + [runner] && sched.wake
      ensures !answer.Running? ==> runs == old(runs) && sched.runners == old(sched.runners) && sched.wake == old(sched.wake)
      ensures old(closed) ==> answer == ShuttingDown
      ensures !old(closed) && session in old(runs) ==> answer == AlreadyRunning(old(runs)[session].runId)
    {
      if closed {
        return ShuttingDown;
      }
      if session in runs {
        return AlreadyRunning(runs[session].runId);
      }
      runs := runs[session := Active(runId, runner)];
      sched.Add(runner);
      return Running(runner);
    }

    /** A start without interference between its critical sections: the same run id gets the same runner back. */
    method Start(session: string, request: Request, table: set<string>) returns (answer: Started)
      requires Valid()
      modifies this`runs, sched`runners, sched`wake
      ensures Valid()
      ensures !(answer.Running? && session !in old(runs)) ==> runs == old(runs) && sched.runners == old(sched.runners)
      ensures session in old(runs) ==>
        var active := old(runs)[session];
        answer == if active.runId == request.runId then Running(active.runner) else AlreadyRunning(active.runId)
      ensures session !in old(runs) ==>
        var supported := request.source in table && forall code | code in request.targets :: code in table;
        && (answer.UnsupportedLanguage? <==> !supported)
        && (answer.UnsupportedLanguage? ==> IsFirstUnsupported(request, table, answer.code))
        && (answer == InvalidSource <==> supported && !request.sourceIsValid)
        && (answer == ShuttingDown <==> supported && request.sourceIsValid && old(closed))
        && (answer.Running? <==> supported && request.sourceIsValid && !old(closed))
        && (answer.Running? ==> fresh(answer.runner) && runs == old(runs)[session := Active(request.runId, answer.runner)])
    {
      var checked := Check(session, request.runId);
      if checked.Some? {
        return checked.value;
      }
      var bad := ValidateLanguages(request, table);
      if bad.Some? {
        return UnsupportedLanguage(bad.value);
      }
      if !request.sourceIsValid {
        return InvalidSource;
      }
      var runner := new Runner();
      answer := Register(session, request.runId, runner);
    }

    /** The run's done callback. An entry that a later run of the session has taken over stays. */
    method OnDone(session: string, runner: Runner)
      requires Valid() && forall s | s in runs && runs[s].runner == runner :: s == session
      modifies this`runs, sched`runners, sched`next
      ensures Valid() && runner !in sched.runners
      ensures runs == if session in old(runs) && old(runs)[session].runner == runner then old(runs) - {session} else old(runs)
      ensures forall r | r in old(sched.runners) && r != runner :: r in sched.runners
    {
      if session in runs && runs[session].runner == runner {
        runs := runs - {session};
      }
      ghost var before := sched.runners;
      sched.Remove(runner);
      OthersStay(before, sched.runners, runner);
    }

    /** Asks the session's run to stop, if it is the one meant; an empty run id means any. */
    method Stop(session: string, runId: string) returns (stopped: Option<Runner>)
      requires Valid()
      modifies ActiveSet()`stopping
      ensures Valid()
      ensures stopped.Some? <==> session in runs && (runId == "" || runId == runs[session].runId)
      ensures stopped.Some? ==> stopped.value == runs[session].runner && stopped.value.stopping
      ensures forall s | s in runs && Some(runs[s].runner) != stopped :: runs[s].runner.stopping == old(runs[s].runner.stopping)
    {
      if session !in runs || (runId != "" && runId != runs[session].runId) {
        return None;
      }
      var runner := runs[session].runner;
      runner.BeginStop();
      return Some(runner);
    }

    /** The loop over the map, in whatever order it gives the sessions. */
    method ActiveRunners() returns (runners: seq<Runner>)
      requires NoneTwice()
      ensures |runners| == |runs| && forall r :: r in runners <==> r in ActiveSet()
      ensures forall i, j | 0 <= i < j < |runners| :: runners[i] != runners[j]
    {
      runners := [];
      ghost var names: seq<string> := [];
      var left := runs.Keys;
      while left != {}
        invariant left <= runs.Keys && |runners| + |left| == |runs|
        invariant |names| == |runners|
        invariant forall i | 0 <= i < |names| :: names[i] in runs && runs[names[i]].runner == runners[i]
        invariant forall s | s in runs :: s in left <==> s !in names
        invariant forall i, j | 0 <= i < j < |names| :: names[i] != names[j]
        decreases |left|
      {
        var session :| session in left;
        left := left - {session};
        runners, names := runners + [runs[session].runner], names + [session];
      }
    }

    /** The critical section of Shutdown. */
    method Close() returns (runners: seq<Runner>)
      requires Valid()
      modifies this`closed, this`snapshot
      ensures Valid() && closed && |runners| == |runs| && forall r :: r in runners <==> r in ActiveSet()
      ensures forall i, j | 0 <= i < j < |runners| :: runners[i] != runners[j]
    {
      closed := true;
      runners := ActiveRunners();
      snapshot := set r | r in runners;
    }

    /**
     * Closes the registry and asks its active runs to stop; they are returned, each once, for the wait that follows.
     * Later calls do nothing.
     */
    method Shutdown() returns (runners: seq<Runner>)
      requires Valid()
      modifies this`closed, this`snapshot, ActiveSet()`stopping
      ensures Valid() && closed
      ensures old(closed) ==> runners == [] && snapshot == old(snapshot)
      ensures !old(closed) ==> |runners| == |runs| && forall r :: r in runners <==> r in ActiveSet()
      ensures forall r | r in runners :: r.stopping
      ensures forall i, j | 0 <= i < j < |runners| :: runners[i] != runners[j]
    {
      if closed {
        return [];
      }
      ghost var active := ActiveSet();
      runners := Close();
      assert forall r | r in runners :: r in active;
      StopAll(runners);
    }

    static method StopAll(runners: seq<Runner>)
      modifies runners`stopping
      ensures forall r | r in runners :: r.stopping
    {
      for i := 0 to |runners|
        invariant forall k | 0 <= k < i :: runners[k].stopping
      {
        runners[i].BeginStop();
      }
    }
  }

  lemma OthersStay(before: seq<Runner>, after: seq<Runner>, runner: Runner)
    requires runner !in before ==> after == before
    requires runner in before ==>
      exists i :: 0 <= i < |before| && before[i] == runner && after == before[..i] + before[i + 1..]
    ensures forall r | r in before && r != runner :: r in after
  {
    if runner in before {
      var i :| 0 <= i < |before| && before[i] == runner && after == before[..i] + before[i + 1..];
      assert before == before[..i] + [runner] + before[i + 1..];
    }
  }
}
