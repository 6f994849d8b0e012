/** The per-session event buffers of services/pipeline/internal/emit/emit.go. */
module EmitClient {
  import opened EventStore
  import opened Options
  import Text

  type Queues = map<string, seq<Event>>

  function Queue(queues: Queues, session: string): seq<Event> {
    if session in queues then queues[session] else []
  }

  function DropNotice(session: string, dropped: nat): Event {
    Log(session, "", "error", "events_dropped", DropMessage(dropped))
  }

  function DropMessage(dropped: nat): string {
    "event buffer overflow, dropped " + Text.Decimal(dropped) + " oldest events"
  }

  /** An error log entry of the session whose message tells how many events are gone. */
  predicate ReportsDropped(e: Event, session: string, gone: nat) {
    && e.Log? && e.session == session && e.level == "error" && e.code == "events_dropped"
    && Text.FirstNumber(e.message) == Some(gone)
  }

  lemma Regroup(a: string, b: string, c: string)
    ensures (a + b) + c == a + (b + c)
  {
  }

  lemma NoticeReports(session: string, gone: nat)
    ensures ReportsDropped(DropNotice(session, gone), session, gone)
  {
    var before, digits, behind := "event buffer overflow, dropped ", Text.Decimal(gone), " oldest events";
    Text.NumberOfDecimal(gone);
    Text.FirstNumberOf(digits, behind);
    Text.FirstNumberBehind(before, digits + behind);
    Regroup(before, digits, behind);
  }

  /**
   * What an overflow keeps: the newest max - 2 events, then the report of how many are gone, then the new event. Below
   * the bound nothing goes.
   */
  predicate KeepsNewest(queue: seq<Event>, ev: Event, session: string, max: nat, after: seq<Event>)
    requires 2 <= max
  {
    if |queue| < max then after == queue + [ev]
    else
      && |after| == max && after[..max - 2] == queue[|queue| - (max - 2)..]
      && ReportsDropped(after[max - 2], session, |queue| - (max - 2)) && after[max - 1] == ev
  }

  lemma EnqueueKeepsBuffers(queues: Queues, session: string, ev: Event, max: nat)
    requires 2 <= max && Sorted(queues) && Bounded(queues, max) && ev.session == session
    ensures var after := queues[session := Enqueued(Queue(queues, session), ev, session, max)];
      Sorted(after) && Bounded(after, max)
  {
    var queue := Queue(queues, session);
    assert forall i | 0 <= i < |queue| :: queue[i].session == session;
    var queue' := Enqueued(queue, ev, session, max);
    assert |queue'| <= max && forall i | 0 <= i < |queue'| :: queue'[i].session == session;
  }

  lemma {:induction false} EnqueuedKeepsNewest(queue: seq<Event>, ev: Event, session: string, max: nat)
    requires 2 <= max
    ensures KeepsNewest(queue, ev, session, max, Enqueued(queue, ev, session, max))
  {
    if |queue| >= max {
      var gone := |queue| - (max - 2);
      NoticeReports(session, gone);
      NewestBehind(queue, DropNotice(session, gone), ev, session, max, Enqueued(queue, ev, session, max));
    }
  }

  lemma {:induction false} NewestBehind(queue: seq<Event>, notice: Event, ev: Event, session: string, max: nat, after: seq<Event>)
    requires 2 <= max <= |queue| && ReportsDropped(notice, session, |queue| - (max - 2))
    requires after == queue[|queue| - (max - 2)..] + [notice, ev]
    ensures KeepsNewest(queue, ev, session, max, after)
  {
    TwoBehind(queue[|queue| - (max - 2)..], notice, ev);
  }

  lemma TwoBehind<T>(front: seq<T>, x: T, y: T)
    ensures var all := front + [x, y];
      |all| == |front| + 2 && all[..|front|] == front && all[|front|] == x && all[|front| + 1] == y
  {
  }

  /** The newest n events. */
  function Newest(events: seq<Event>, n: nat): seq<Event> {
    if |events| <= n then events else events[|events| - n..]
  }

  /**
   * enqueue on a buffer with room for max events: an overflow keeps the newest max - 2 and reports
   * how many were dropped before the new event.
   */
  function Enqueued(queue: seq<Event>, ev: Event, session: string, max: nat): seq<Event>
    requires 2 <= max
  {
    if |queue| < max then queue + [ev]
    else Newest(queue, max - 2) + [DropNotice(session, |queue| - (max - 2)), ev]
  }

  /** Every buffered event belongs to the session it is buffered under. */
  ghost predicate Sorted(queues: Queues) {
    forall s | s in queues :: forall i | 0 <= i < |queues[s]| :: queues[s][i].session == s
  }

  ghost predicate Bounded(queues: Queues, max: nat) {
    forall s | s in queues :: |queues[s]| <= max
  }

  /**
   * What take(n) may answer, for any iteration order over the map: per session the batch is a prefix
   * of the queue and the rest stays; the batch is full or everything was taken; and a session that
   * still has events gave at most one fewer than any other.
   */
  ghost predicate Taken(queues: Queues, n: nat, rest: Queues, batch: seq<Event>) {
    && rest.Keys == queues.Keys && |batch| <= n
    && (forall s | s in queues :: On(batch, s) + rest[s] == queues[s])
    && (forall s | s !in queues :: On(batch, s) == [])
    && (|batch| < n ==> forall s | s in queues :: rest[s] == [])
    && (forall s, t | s in queues && t in queues && rest[s] != [] :: |On(batch, t)| <= |On(batch, s)| + 1)
  }

  /** What restore(batch) makes of one session's queue: the batch goes back in front, cut to the newest max. */
  function PutBack(front: seq<Event>, queue: seq<Event>, max: nat): seq<Event> {
    if front == [] then queue else Newest(front + queue, max)
  }

  ghost predicate Restored(queues: Queues, batch: seq<Event>, max: nat, back: Queues) {
    && (forall s :: s in back <==> s in queues || On(batch, s) != [])
    && forall s | s in back :: back[s] == PutBack(On(batch, s), Queue(queues, s), max)
  }

  /** after is all of it, or as many as max of its newest events. */
  predicate IsTail(after: seq<Event>, all: seq<Event>, max: nat) {
    if |all| <= max then after == all else |after| == max && after == all[|all| - max..]
  }

  /** A restore lets go of the oldest events only, and only as many as the bound demands. */
  lemma RestoredIsTail(queues: Queues, batch: seq<Event>, max: nat, back: Queues)
    requires Bounded(queues, max) && Restored(queues, batch, max, back)
    ensures forall s | s in back :: IsTail(back[s], On(batch, s) + Queue(queues, s), max)
  {
    forall s | s in back
      ensures IsTail(back[s], On(batch, s) + Queue(queues, s), max)
    {
      PutBackIsTail(On(batch, s), Queue(queues, s), max);
    }
  }

  lemma PutBackIsTail(front: seq<Event>, queue: seq<Event>, max: nat)
    requires |queue| <= max
    ensures IsTail(PutBack(front, queue, max), front + queue, max)
  {
    if front == [] {
      assert front + queue == queue;
    }
  }

  /** A failed batch that is put straight back leaves the buffers exactly as they were. */
  lemma RestoreUndoesTake(queues: Queues, n: nat, rest: Queues, batch: seq<Event>, max: nat, back: Queues)
    requires Taken(queues, n, rest, batch) && Bounded(queues, max) && Restored(rest, batch, max, back)
    ensures back == queues
  {
    forall s | s in queues
      ensures back[s] == queues[s]
    {
      PutBackWhole(On(batch, s), rest[s], queues[s], max);
    }
    assert back.Keys == queues.Keys;
  }

  lemma PutBackWhole(front: seq<Event>, rest: seq<Event>, queue: seq<Event>, max: nat)
    requires front + rest == queue && |queue| <= max
    ensures PutBack(front, rest, max) == queue
  {
  }

  class Client {
    const bufferMax: nat
    var queues: Queues
    var wake: bool

    constructor (bufferMax: nat)
      requires 2 <= bufferMax
      ensures Valid() && this.bufferMax == bufferMax && queues == map[]
    {
      this.bufferMax := bufferMax;
      queues, wake := map[], false;
    }

    ghost predicate Valid()
      reads this
    {
      2 <= bufferMax && Sorted(queues) && Bounded(queues, bufferMax)
    }

    method Enqueue(session: string, ev: Event)
      requires Valid() && ev.session == session
      modifies this
      ensures Valid() && wake
      ensures queues == old(queues)[session := Enqueued(Queue(old(queues), session), ev, session, bufferMax)]
      ensures KeepsNewest(Queue(old(queues), session), ev, session, bufferMax, queues[session])
    {
      var queue := if session in queues then queues[session] else [];
      var before := queue;
      var dropped := 0;
      while |queue| >= bufferMax
        invariant dropped <= |before| && queue == before[dropped..]
        invariant dropped > 0 ==> |queue| >= bufferMax - 1
      {
        queue := queue[1..];
        dropped := dropped + 1;
      }
      if dropped > 0 {
        if |queue| >= bufferMax - 1 {
          queue := queue[1..];
          dropped := dropped + 1;
        }
        queue := queue + [DropNotice(session, dropped)];
      }
      assert dropped > 0 ==> queue + [ev] == before[dropped..] + [DropNotice(session, dropped), ev];
      queue := queue + [ev];
      assert queue == Enqueued(before, ev, session, bufferMax);
      EnqueuedKeepsNewest(before, ev, session, bufferMax);
      EnqueueKeepsBuffers(queues, session, ev, bufferMax);
      queues := queues[session := queue];
      wake := true;
    }

    /** Pops up to n events, one per session and pass, in whatever order the map is iterated. */
    method Take(n: nat) returns (batch: seq<Event>)
      requires Valid()
      modifies this`queues
      ensures Valid() && Taken(old(queues), n, queues, batch)
    {
      batch := [];
      ghost var all := queues;
      ghost var round := 0;
      var progress := true;
      while |batch| < n && progress
        invariant Valid() && Progress(all, queues, batch) && |batch| <= n && Fair(all, queues, batch)
        invariant |batch| < n ==> Rounds(all, batch, round, all.Keys)
        invariant !progress && |batch| < n ==> forall s | s in all :: queues[s] == []
        decreases n - |batch|, progress
      {
        batch, progress := Pass(n, batch, all, round);
        round := round + 1;
      }
    }

    /** One pass over the sessions. */
    method Pass(n: nat, taken: seq<Event>, ghost all: Queues, ghost round: nat) returns (batch: seq<Event>, progress: bool)
      requires Valid() && Progress(all, queues, taken) && |taken| < n && Rounds(all, taken, round, all.Keys)
      modifies this`queues
      ensures Valid()
      ensures Progress(all, queues, batch) && Fair(all, queues, batch)
      ensures |taken| <= |batch| <= n && (progress <==> |batch| > |taken|)
      ensures |batch| < n ==> Rounds(all, batch, round + 1, all.Keys)
      ensures !progress ==> forall s | s in all :: queues[s] == []
    {
      batch, progress := taken, false;
      var unseen := queues.Keys;
      while unseen != {} && |batch| < n
        invariant unseen <= all.Keys && Valid() && Progress(all, queues, batch) && |taken| <= |batch| <= n
        invariant Rounds(all, batch, round, unseen)
        invariant progress <==> |batch| > |taken|
        invariant !progress ==> forall s | s in all && s !in unseen :: queues[s] == []
        decreases |unseen|
      {
        var session :| session in unseen;
        var queue := queues[session];
        if |queue| == 0 {
          SkipKeepsRounds(all, queues, batch, round, unseen, session);
        } else {
          PopKeepsValid(queues, session, bufferMax);
          PopKeepsProgress(all, queues, batch, session);
          PopKeepsRounds(all, queues, batch, round, unseen, session);
          batch := batch + [queue[0]];
          queues := queues[session := queue[1..]];
          progress := true;
        }
        unseen := unseen - {session};
      }
      RoundsAreFair(all, queues, batch, round, unseen);
    }

    /** Puts a failed batch back in front of its sessions' queues. */
    method Restore(batch: seq<Event>)
      requires Valid()
      modifies this`queues
      ensures Valid() && Restored(old(queues), batch, bufferMax, queues)
      ensures forall s | s in queues :: IsTail(queues[s], On(batch, s) + Queue(old(queues), s), bufferMax)
    {
      ghost var before := queues;
      var front := Group(batch);
      RestoreFronts(batch, front);
      RestoredIsTail(before, batch, bufferMax, queues);
    }

    static method Group(batch: seq<Event>) returns (front: Queues)
      ensures IsFront(front, batch)
    {
      front := map[];
      for i := 0 to |batch|
        invariant IsFront(front, batch[..i])
      {
        assert batch[..i + 1] == batch[..i] + [batch[i]];
        FrontGrows(front, batch[..i], batch[i]);
        var session := batch[i].session;
        front := front[session := (if session in front then front[session] else []) + [batch[i]]];
      }
      assert batch[..|batch|] == batch;
    }

    method RestoreFronts(ghost batch: seq<Event>, front: Queues)
      requires Valid() && IsFront(front, batch)
      modifies this`queues
      ensures Valid() && Restored(old(queues), batch, bufferMax, queues)
    {
      var left := front.Keys;
      NothingRestored(queues, front, batch, bufferMax);
      while left != {}
        invariant left <= front.Keys && Valid() && PartlyRestored(old(queues), batch, bufferMax, queues, left)
        decreases |left|
      {
        var session :| session in left;
        assert On(batch, session) != [] && front[session] == On(batch, session);
        PutBackOwn(batch, queues, bufferMax, session);
        PutBackOne(old(queues), batch, bufferMax, queues, left, session);
        PutBackQueue(session, front[session]);
        left := left - {session};
      }
      AllRestored(old(queues), batch, bufferMax, queues);
    }

    method PutBackQueue(session: string, events: seq<Event>)
      requires events != []
      modifies this`queues
      ensures queues == old(queues)[session := PutBack(events, Queue(old(queues), session), bufferMax)]
    {
      var queue := events + if session in queues then queues[session] else [];
      if |queue| > bufferMax {
        queue := queue[|queue| - bufferMax..];
      }
      queues := queues[session := queue];
    }
  }

  lemma NothingRestored(queues: Queues, front: Queues, batch: seq<Event>, max: nat)
    requires IsFront(front, batch)
    ensures PartlyRestored(queues, batch, max, queues, front.Keys)
  {
  }

  lemma AllRestored(queues: Queues, batch: seq<Event>, max: nat, back: Queues)
    requires PartlyRestored(queues, batch, max, back, {})
    ensures Restored(queues, batch, max, back)
  {
  }

  /** The batch grouped by session, in batch order. */
  ghost predicate IsFront(front: Queues, batch: seq<Event>) {
    forall s :: (s in front <==> On(batch, s) != []) && (s in front ==> front[s] == On(batch, s))
  }

  lemma FrontGrows(front: Queues, batch: seq<Event>, e: Event)
    requires IsFront(front, batch)
    ensures IsFront(front[e.session := Queue(front, e.session) + [e]], batch + [e])
  {
    OnAppend(batch, e);
  }

  /** Restored, except for the sessions in left, which are still as they were. */
  ghost predicate PartlyRestored(queues: Queues, batch: seq<Event>, max: nat, back: Queues, left: set<string>) {
    && (forall s :: s in back <==> s in queues || (On(batch, s) != [] && s !in left))
    && forall s | s in back ::
         back[s] == if s in left then queues[s] else PutBack(On(batch, s), Queue(queues, s), max)
  }

  lemma PutBackOne(queues: Queues, batch: seq<Event>, max: nat, back: Queues, left: set<string>, session: string)
    requires PartlyRestored(queues, batch, max, back, left) && session in left && On(batch, session) != []
    ensures PartlyRestored(queues, batch, max,
              back[session := PutBack(On(batch, session), Queue(back, session), max)], left - {session})
  {
  }

  lemma PutBackOwn(batch: seq<Event>, queues: Queues, max: nat, session: string)
    requires Sorted(queues) && Bounded(queues, max) && On(batch, session) != []
    ensures var back := queues[session := PutBack(On(batch, session), Queue(queues, session), max)];
      Sorted(back) && Bounded(back, max)
  {
    OnOwnEvents(batch, session);
    assert forall i | 0 <= i < |Queue(queues, session)| :: Queue(queues, session)[i].session == session;
  }

  lemma {:induction false} OnOwnEvents(events: seq<Event>, session: string)
    ensures forall i | 0 <= i < |On(events, session)| :: On(events, session)[i].session == session
  {
    if events != [] {
      OnOwnEvents(events[..|events| - 1], session);
    }
  }

  lemma PopKeepsValid(queues: Queues, session: string, max: nat)
    requires Sorted(queues) && Bounded(queues, max) && session in queues && queues[session] != []
    ensures Sorted(queues[session := queues[session][1..]]) && Bounded(queues[session := queues[session][1..]], max)
  {
  }

  function Least(a: nat, b: nat): nat { if a <= b then a else b }

  ghost predicate Progress(all: Queues, queues: Queues, batch: seq<Event>) {
    && queues.Keys == all.Keys
    && (forall s | s in all :: On(batch, s) + queues[s] == all[s])
    && (forall s | s !in all :: On(batch, s) == [])
  }

  ghost predicate Fair(all: Queues, queues: Queues, batch: seq<Event>)
    requires queues.Keys == all.Keys
  {
    forall s, t | s in all && t in all && queues[s] != [] :: |On(batch, t)| <= |On(batch, s)| + 1
  }

  /** Sessions still unseen in this pass have given `round` events, the others one more, unless they ran out. */
  ghost predicate Rounds(all: Queues, batch: seq<Event>, round: nat, unseen: set<string>) {
    forall s | s in all :: |On(batch, s)| == Least(if s in unseen then round else round + 1, |all[s]|)
  }

  lemma PopKeepsProgress(all: Queues, queues: Queues, batch: seq<Event>, session: string)
    requires Progress(all, queues, batch) && session in queues && queues[session] != []
    requires queues[session][0].session == session
    ensures Progress(all, queues[session := queues[session][1..]], batch + [queues[session][0]])
  {
    var e, rest := queues[session][0], queues[session := queues[session][1..]];
    OnAppend(batch, e);
    forall s | s in all
      ensures On(batch + [e], s) + rest[s] == all[s]
    {
      if s == session {
        assert (On(batch, s) + [e]) + queues[s][1..] == On(batch, s) + queues[s];
      } else {
        assert On(batch, s) + [] == On(batch, s);
      }
    }
  }

  lemma OnAppend(batch: seq<Event>, e: Event)
    ensures forall s :: On(batch + [e], s) == On(batch, s) + if e.session == s then [e] else []
  {
    assert (batch + [e])[..|batch|] == batch;
  }

  lemma PopKeepsRounds(all: Queues, queues: Queues, batch: seq<Event>, round: nat, unseen: set<string>, session: string)
    requires Progress(all, queues, batch) && Rounds(all, batch, round, unseen)
    requires session in unseen && session in queues && queues[session] != [] && queues[session][0].session == session
    ensures Rounds(all, batch + [queues[session][0]], round, unseen - {session})
  {
    OnAppend(batch, queues[session][0]);
    assert |all[session]| == |On(batch, session)| + |queues[session]|;
  }

  lemma SkipKeepsRounds(all: Queues, queues: Queues, batch: seq<Event>, round: nat, unseen: set<string>, session: string)
    requires Progress(all, queues, batch) && Rounds(all, batch, round, unseen)
    requires session in queues && queues[session] == []
    ensures Rounds(all, batch, round, unseen - {session})
  {
    assert |all[session]| == |On(batch, session)|;
  }

  lemma RoundsAreFair(all: Queues, queues: Queues, batch: seq<Event>, round: nat, unseen: set<string>)
    requires Progress(all, queues, batch) && Rounds(all, batch, round, unseen)
    ensures Fair(all, queues, batch)
  {
    forall s, t | s in all && t in all && queues[s] != []
      ensures |On(batch, t)| <= |On(batch, s)| + 1
    {
      assert |all[s]| == |On(batch, s)| + |queues[s]|;
    }
  }
}
