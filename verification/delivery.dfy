/**
 * Event delivery end to end: producers append to the emitter's buffers, one drainer posts batches,
 * and any post may fail before or after the store committed it (emit.go and route.ts together).
 */
module Delivery {
  import opened EventStore
  import opened EmitClient

  const BATCH_MAX: nat := 50

  /** A refused batch that the route may still commit, and what was acknowledged when the emitter gave it up. */
  datatype Late = Late(batch: seq<Event>, ackedThen: Queues)

  datatype Link = Link(
    queues: Queues,
    posting: bool,
    inflight: seq<Event>,     // the batch being posted
    tables: Tables,
    appended: Queues,         // everything ever appended, per session, drop notices included
    acked: Queues,            // everything the emitter saw acknowledged, per session
    overflowed: bool,         // some buffer had to drop events
    late: seq<Late>,
    stale: set<string>)       // sessions for which a batch was committed after more had been acknowledged

  function Init(tables: Tables): Link {
    Link(map[], false, [], tables, map[], map[], false, [], {})
  }

  datatype Action =
    | Append(session: string, ev: Event)
    | TakeBatch(rest: Queues, batch: seq<Event>)
    | Acknowledged              // committed, and the answer arrived
    | AnswerLost(back: Queues)  // committed, but the emitter saw a failure and restored the batch
    | Refused(back: Queues)     // not committed, or not yet; restored
    | LateCommit(k: nat)        // a batch given up earlier is committed after all

  ghost predicate Enabled(l: Link, a: Action, max: nat) {
    match a
    case Append(session, ev) => ev.session == session
    case TakeBatch(rest, batch) => !l.posting && Taken(l.queues, BATCH_MAX, rest, batch) && batch != []
    case Acknowledged => l.posting && Accepts(l.tables, l.inflight)
    case AnswerLost(back) => l.posting && Accepts(l.tables, l.inflight) && Restored(l.queues, l.inflight, max, back)
    case Refused(back) => l.posting && Restored(l.queues, l.inflight, max, back)
    case LateCommit(k) => k < |l.late| && Accepts(l.tables, l.late[k].batch)
  }

  /** The sessions of a late batch that have had more acknowledged since it was given up. */
  function Outdated(l: Link, late: Late): set<string> {
    set e | e in late.batch && Queue(l.acked, e.session) != Queue(late.ackedThen, e.session) :: e.session
  }

  /** What an append adds to a session's history. */
  function Added(queue: seq<Event>, ev: Event, max: nat): seq<Event>
    requires 2 <= max
  {
    if |queue| < max then [ev] else [DropNotice(ev.session, |queue| - (max - 2)), ev]
  }

  ghost predicate RestoreOverflows(l: Link, max: nat) {
    exists s :: |On(l.inflight, s)| + |Queue(l.queues, s)| > max
  }

  ghost function Apply(l: Link, a: Action, max: nat): Link
    requires 2 <= max && Enabled(l, a, max)
  {
    match a
    case Append(session, ev) =>
      var queue := Queue(l.queues, session);
      l.(queues := l.queues[session := Enqueued(queue, ev, session, max)],
         appended := l.appended[session := Queue(l.appended, session) + Added(queue, ev, max)],
         overflowed := l.overflowed || |queue| >= max)
    case TakeBatch(rest, batch) => l.(queues := rest, inflight := batch, posting := true)
    case Acknowledged =>
      l.(tables := ApplyAll(l.tables, l.inflight), posting := false, inflight := [],
         acked := map s | s in l.acked.Keys + (set e | e in l.inflight :: e.session) ::
                    Queue(l.acked, s) + On(l.inflight, s))
    case AnswerLost(back) =>
      l.(tables := ApplyAll(l.tables, l.inflight), posting := false, inflight := [], queues := back,
         overflowed := l.overflowed || RestoreOverflows(l, max))
    case Refused(back) =>
      l.(posting := false, inflight := [], queues := back, overflowed := l.overflowed || RestoreOverflows(l, max),
         late := l.late + [Late(l.inflight, l.acked)])
    case LateCommit(k) =>
      l.(tables := ApplyAll(l.tables, l.late[k].batch), late := l.late[..k] + l.late[k + 1..],
         stale := l.stale + Outdated(l, l.late[k]))
  }

  // ------------------------------------------------------------- order and bound

  /** a can be obtained from b by leaving elements out. */
  ghost predicate IsSubsequence(a: seq<Event>, b: seq<Event>)
    decreases |b|
  {
    a == [] || (b != [] &&
      (IsSubsequence(a, b[..|b| - 1]) || (a[|a| - 1] == b[|b| - 1] && IsSubsequence(a[..|a| - 1], b[..|b| - 1]))))
  }

  lemma {:induction false} LeaveOut(front: seq<Event>, middle: seq<Event>, back: seq<Event>, b: seq<Event>)
    requires IsSubsequence(front + middle + back, b)
    ensures IsSubsequence(front + back, b)
    decreases |b|
  {
    var all := front + middle + back;
    if front + back != [] && b != [] {
      if IsSubsequence(all, b[..|b| - 1]) {
        LeaveOut(front, middle, back, b[..|b| - 1]);
      } else if back != [] {
        assert all[..|all| - 1] == front + middle + back[..|back| - 1];
        LeaveOut(front, middle, back[..|back| - 1], b[..|b| - 1]);
        assert (front + back)[..|front + back| - 1] == front + back[..|back| - 1];
      } else if middle != [] {
        assert all[..|all| - 1] == front + middle[..|middle| - 1] + back;
        LeaveOut(front, middle[..|middle| - 1], back, b[..|b| - 1]);
      } else {
        assert all == front + back;
      }
    }
  }

  lemma {:induction false} ExtendBoth(a: seq<Event>, b: seq<Event>, more: seq<Event>)
    requires IsSubsequence(a, b)
    ensures IsSubsequence(a + more, b + more)
  {
    if more == [] {
      assert a + more == a && b + more == b;
    } else {
      var init := more[..|more| - 1];
      ExtendBoth(a, b, init);
      assert (a + more)[..|a + more| - 1] == a + init;
      assert (b + more)[..|b + more| - 1] == b + init;
    }
  }

  lemma {:induction false} SubsequenceOfItself(a: seq<Event>)
    ensures IsSubsequence(a, a)
  {
    if a != [] {
      SubsequenceOfItself(a[..|a| - 1]);
    }
  }

  /** Acknowledged, in flight and queued, in this order. */
  function Kept(l: Link, s: string): seq<Event> {
    Queue(l.acked, s) + (On(l.inflight, s) + Queue(l.queues, s))
  }

  ghost predicate BuffersInv(l: Link, max: nat) {
    Sorted(l.queues) && Bounded(l.queues, max) && (!l.posting ==> l.inflight == [])
  }

  /** What is kept of a session is in append order, and is everything unless a buffer overflowed. */
  ghost predicate HistoryInv(l: Link, s: string) {
    && IsSubsequence(Kept(l, s), Queue(l.appended, s))
    && (!l.overflowed ==> Kept(l, s) == Queue(l.appended, s))
  }

  ghost predicate OrderInv(l: Link, max: nat) {
    BuffersInv(l, max) && forall s :: HistoryInv(l, s)
  }

  /** An enqueue drops a prefix of the queue and adds the new events at its end. */
  lemma EnqueueDropsPrefix(queue: seq<Event>, ev: Event, max: nat) returns (gone: seq<Event>, kept: seq<Event>)
    requires 2 <= max
    ensures queue == gone + kept && Enqueued(queue, ev, ev.session, max) == kept + Added(queue, ev, max)
    ensures |queue| < max ==> gone == []
  {
    kept := if |queue| < max then queue else Newest(queue, max - 2);
    gone := queue[..|queue| - |kept|];
  }

  lemma EnqueueKeepsOrder(acked: seq<Event>, front: seq<Event>, queue: seq<Event>, appended: seq<Event>, ev: Event, max: nat)
    requires 2 <= max && IsSubsequence(acked + (front + queue), appended)
    ensures IsSubsequence(acked + (front + Enqueued(queue, ev, ev.session, max)), appended + Added(queue, ev, max))
    ensures |queue| < max && acked + (front + queue) == appended ==>
              acked + (front + Enqueued(queue, ev, ev.session, max)) == appended + Added(queue, ev, max)
  {
    var added := Added(queue, ev, max);
    var gone, kept := EnqueueDropsPrefix(queue, ev, max);
    Regroup(acked, front, gone, kept);
    Regroup(acked, front, kept, added);
    DropAndExtend(acked + front, gone, kept, appended, added);
  }

  lemma Regroup(a: seq<Event>, b: seq<Event>, c: seq<Event>, d: seq<Event>)
    ensures a + (b + (c + d)) == a + b + c + d
  {
  }

  lemma DropAndExtend(before: seq<Event>, gone: seq<Event>, kept: seq<Event>, appended: seq<Event>, added: seq<Event>)
    ensures IsSubsequence(before + gone + kept, appended) ==> IsSubsequence(before + kept + added, appended + added)
    ensures gone == [] && before + gone + kept == appended ==> before + kept + added == appended + added
  {
    if IsSubsequence(before + gone + kept, appended) {
      LeaveOut(before, gone, kept, appended);
      ExtendBoth(before + kept, appended, added);
    }
    assert gone == [] ==> before + gone == before;
  }

  lemma PutBackKeepsOrder(acked: seq<Event>, front: seq<Event>, queue: seq<Event>, appended: seq<Event>, max: nat)
    requires |queue| <= max && IsSubsequence(acked + (front + queue), appended)
    ensures IsSubsequence(acked + ([] + PutBack(front, queue, max)), appended)
    ensures |front| + |queue| <= max ==> acked + ([] + PutBack(front, queue, max)) == acked + (front + queue)
  {
    var all, back := front + queue, PutBack(front, queue, max);
    var gone := all[..|all| - |back|];
    assert acked + all == acked + gone + back;
    LeaveOut(acked, gone, back, appended);
    assert [] + back == back;
  }

  lemma AppendBuffers(l: Link, session: string, ev: Event, max: nat)
    requires 2 <= max && BuffersInv(l, max) && ev.session == session
    ensures BuffersInv(Apply(l, Append(session, ev), max), max)
  {
    EnqueueKeepsBuffers(l.queues, session, ev, max);
  }

  lemma AppendHistory(l: Link, session: string, ev: Event, max: nat, s: string)
    requires 2 <= max && HistoryInv(l, s) && ev.session == session
    ensures HistoryInv(Apply(l, Append(session, ev), max), s)
  {
    if s == session {
      EnqueueKeepsOrder(Queue(l.acked, s), On(l.inflight, s), Queue(l.queues, s), Queue(l.appended, s), ev, max);
    } else {
      AppendElsewhere(l, session, ev, max, s);
    }
  }

  lemma AppendElsewhere(l: Link, session: string, ev: Event, max: nat, s: string)
    requires 2 <= max && ev.session == session != s
    ensures var l' := Apply(l, Append(session, ev), max);
      Kept(l', s) == Kept(l, s) && Queue(l'.appended, s) == Queue(l.appended, s)
  {
  }

  lemma TakeBuffers(l: Link, rest: Queues, batch: seq<Event>, max: nat)
    requires 2 <= max && BuffersInv(l, max) && Enabled(l, TakeBatch(rest, batch), max)
    ensures BuffersInv(Apply(l, TakeBatch(rest, batch), max), max)
  {
    forall s | s in rest
      ensures Fits(rest[s], s, max)
    {
      RestFits(On(batch, s), rest[s], l.queues[s], s, max);
    }
  }

  /** A buffer of one session within its bound. */
  ghost predicate Fits(queue: seq<Event>, s: string, max: nat) {
    |queue| <= max && forall i | 0 <= i < |queue| :: queue[i].session == s
  }

  lemma RestFits(front: seq<Event>, rest: seq<Event>, queue: seq<Event>, s: string, max: nat)
    requires front + rest == queue && Fits(queue, s, max)
    ensures Fits(rest, s, max)
  {
    assert forall i | 0 <= i < |rest| :: rest[i] == queue[|front| + i];
  }

  lemma PutBackFits(front: seq<Event>, queue: seq<Event>, s: string, max: nat)
    requires Fits(queue, s, max) && forall i | 0 <= i < |front| :: front[i].session == s
    ensures Fits(PutBack(front, queue, max), s, max)
  {
  }

  lemma TakeHistory(l: Link, rest: Queues, batch: seq<Event>, max: nat, s: string)
    requires 2 <= max && HistoryInv(l, s) && !l.posting && l.inflight == [] && Enabled(l, TakeBatch(rest, batch), max)
    ensures HistoryInv(Apply(l, TakeBatch(rest, batch), max), s)
  {
    if s in l.queues {
      assert On(batch, s) + rest[s] == l.queues[s];
    }
    assert [] + Queue(l.queues, s) == Queue(l.queues, s);
  }

  lemma {:induction false} OnNothing(events: seq<Event>, s: string)
    requires forall i | 0 <= i < |events| :: events[i].session != s
    ensures On(events, s) == []
  {
    if events != [] {
      OnNothing(events[..|events| - 1], s);
    }
  }

  lemma AckedQueue(l: Link, s: string, max: nat)
    requires 2 <= max && Enabled(l, Acknowledged, max)
    ensures Queue(Apply(l, Acknowledged, max).acked, s) == Queue(l.acked, s) + On(l.inflight, s)
  {
    if s !in l.acked.Keys + (set e | e in l.inflight :: e.session) {
      assert forall i | 0 <= i < |l.inflight| :: l.inflight[i] in l.inflight;
      OnNothing(l.inflight, s);
    }
  }

  lemma AcknowledgedHistory(l: Link, max: nat, s: string)
    requires 2 <= max && HistoryInv(l, s) && Enabled(l, Acknowledged, max)
    ensures HistoryInv(Apply(l, Acknowledged, max), s)
  {
    AckedQueue(l, s, max);
    AckedKept(Queue(l.acked, s), On(l.inflight, s), Queue(l.queues, s));
  }

  lemma AckedKept<T>(acked: seq<T>, mine: seq<T>, queue: seq<T>)
    ensures acked + mine + ([] + queue) == acked + (mine + queue)
  {
  }

  lemma RestoreBuffers(l: Link, a: Action, max: nat)
    requires 2 <= max && BuffersInv(l, max) && Enabled(l, a, max) && (a.AnswerLost? || a.Refused?)
    ensures BuffersInv(Apply(l, a, max), max)
  {
    forall s | s in a.back
      ensures Fits(a.back[s], s, max)
    {
      OnOwnEvents(l.inflight, s);
      assert Fits(Queue(l.queues, s), s, max);
      PutBackFits(On(l.inflight, s), Queue(l.queues, s), s, max);
    }
  }

  lemma RestoreHistory(l: Link, a: Action, max: nat, s: string)
    requires 2 <= max && HistoryInv(l, s) && |Queue(l.queues, s)| <= max
    requires Enabled(l, a, max) && (a.AnswerLost? || a.Refused?)
    ensures HistoryInv(Apply(l, a, max), s)
  {
    PutBackKeepsOrder(Queue(l.acked, s), On(l.inflight, s), Queue(l.queues, s), Queue(l.appended, s), max);
    assert Queue(a.back, s) == PutBack(On(l.inflight, s), Queue(l.queues, s), max);
  }

  lemma StepHistory(l: Link, a: Action, max: nat, s: string)
    requires 2 <= max && BuffersInv(l, max) && HistoryInv(l, s) && Enabled(l, a, max)
    ensures HistoryInv(Apply(l, a, max), s)
  {
    match a {
      case Append(session, ev) => AppendHistory(l, session, ev, max, s);
      case TakeBatch(rest, batch) => TakeHistory(l, rest, batch, max, s);
      case Acknowledged => AcknowledgedHistory(l, max, s);
      case LateCommit(_) =>
      case _ => RestoreHistory(l, a, max, s);
    }
  }

  lemma StepOrder(l: Link, a: Action, max: nat)
    requires 2 <= max && OrderInv(l, max) && Enabled(l, a, max)
    ensures OrderInv(Apply(l, a, max), max)
  {
    match a {
      case Append(session, ev) => AppendBuffers(l, session, ev, max);
      case TakeBatch(rest, batch) => TakeBuffers(l, rest, batch, max);
      case Acknowledged =>
      case LateCommit(_) =>
      case _ => RestoreBuffers(l, a, max);
    }
    forall s
      ensures HistoryInv(Apply(l, a, max), s)
    {
      StepHistory(l, a, max, s);
    }
  }

  // ----------------------------------------------- at least once is exactly once

  /**
   * The store has seen the acknowledged part of a session's history and possibly more of it, up to
   * `reached`; delivering from the acknowledged position on always leads to the state that delivering
   * everything once, in order, leads to.
   */
  ghost predicate CatchesUp(view: View, start: View, history: seq<Event>, acked: nat, reached: nat) {
    && acked <= reached <= |history|
    && forall m | reached <= m <= |history| :: SeeAll(view, history[acked..m]) == SeeAll(start, history[..m])
  }

  ghost predicate Reaches(l: Link, start: Tables, s: string, reached: nat) {
    CatchesUp(ViewOf(l.tables, s), ViewOf(start, s), Queue(l.appended, s), |Queue(l.acked, s)|, reached)
  }

  ghost predicate StoreInv(l: Link, start: Tables, s: string) {
    !l.overflowed && s !in l.stale ==> exists reached: nat :: Reaches(l, start, s, reached)
  }

  /** A batch given up is the piece of the history behind what was acknowledged then. */
  ghost predicate IsPieceOf(late: Late, acked: seq<Event>, history: seq<Event>, s: string) {
    Queue(late.ackedThen, s) <= acked && Queue(late.ackedThen, s) + On(late.batch, s) <= history
  }

  ghost predicate LateInv(l: Link, s: string) {
    !l.overflowed ==> forall late | late in l.late :: IsPieceOf(late, Queue(l.acked, s), Queue(l.appended, s), s)
  }

  /** Appending one more event to the history. */
  lemma HistoryGrows(view: View, start: View, history: seq<Event>, acked: nat, reached: nat, more: seq<Event>)
    requires CatchesUp(view, start, history, acked, reached)
    ensures CatchesUp(view, start, history + more, acked, reached)
  {
    var history' := history + more;
    forall m | reached <= m <= |history'|
      ensures SeeAll(view, history'[acked..m]) == SeeAll(start, history'[..m])
    {
      if m <= |history| {
        assert history'[acked..m] == history[acked..m] && history'[..m] == history[..m];
      } else {
        var tail := history'[|history|..m];
        assert history'[acked..m] == history[acked..|history|] + tail && history'[..m] == history[..|history|] + tail;
        SeeAllConcat(view, history[acked..|history|], tail);
        SeeAllConcat(start, history[..|history|], tail);
      }
    }
  }

  /** The store commits the next count events of the history, whatever it had seen of them already. */
  lemma CommitCatchesUp(view: View, view': View, start: View, history: seq<Event>, acked: nat, reached: nat, batch: seq<Event>)
    returns (reached': nat)
    requires CatchesUp(view, start, history, acked, reached) && view' == SeeAll(view, batch)
    requires acked + |batch| <= |history| && history[acked..acked + |batch|] == batch
    ensures CatchesUp(view', start, history, acked, reached') && CatchesUp(view', start, history, acked + |batch|, reached')
  {
    reached' := if reached < acked + |batch| then acked + |batch| else reached;
    forall m | reached' <= m <= |history|
      ensures SeeAll(view', history[acked..m]) == SeeAll(start, history[..m])
      ensures SeeAll(view', history[acked + |batch|..m]) == SeeAll(start, history[..m])
    {
      var rest := history[acked + |batch|..m];
      assert history[acked..m] == batch + rest;
      ReplayIsAbsorbed(view, batch, rest);
      SeeAllConcat(view, batch, rest);
    }
  }

  lemma CommitStore(l: Link, a: Action, start: Tables, max: nat, s: string)
    requires 2 <= max && HistoryInv(l, s) && StoreInv(l, start, s) && Enabled(l, a, max)
    requires a.Acknowledged? || a.AnswerLost?
    ensures StoreInv(Apply(l, a, max), start, s)
  {
    if !l.overflowed && s !in l.stale {
      var reached: nat :| Reaches(l, start, s, reached);
      CommitReaches(l, a, start, max, s, reached);
    }
  }

  lemma CommitReaches(l: Link, a: Action, start: Tables, max: nat, s: string, reached: nat)
    requires 2 <= max && Enabled(l, a, max) && (a.Acknowledged? || a.AnswerLost?)
    requires Kept(l, s) == Queue(l.appended, s) && Reaches(l, start, s, reached)
    ensures exists reached': nat :: Reaches(Apply(l, a, max), start, s, reached')
  {
    var reached' := BatchCatchesUp(l, start, s, reached);
    CommitReached(l, a, start, max, s, reached');
  }

  lemma CommitReached(l: Link, a: Action, start: Tables, max: nat, s: string, reached: nat)
    requires 2 <= max && Enabled(l, a, max) && (a.Acknowledged? || a.AnswerLost?)
    requires CatchesUp(ViewOf(ApplyAll(l.tables, l.inflight), s), ViewOf(start, s), Queue(l.appended, s),
                       |Queue(l.acked, s)| + (if a.Acknowledged? then |On(l.inflight, s)| else 0), reached)
    ensures Reaches(Apply(l, a, max), start, s, reached)
  {
    if a.Acknowledged? {
      AckedQueue(l, s, max);
    }
  }

  lemma BatchCatchesUp(l: Link, start: Tables, s: string, reached: nat) returns (reached': nat)
    requires Kept(l, s) == Queue(l.appended, s) && Reaches(l, start, s, reached)
    ensures var committed, history, acked := ViewOf(ApplyAll(l.tables, l.inflight), s), Queue(l.appended, s), |Queue(l.acked, s)|;
      && CatchesUp(committed, ViewOf(start, s), history, acked, reached')
      && CatchesUp(committed, ViewOf(start, s), history, acked + |On(l.inflight, s)|, reached')
  {
    PieceGivenUp(l, s);
    ViewOfBatch(l.tables, l.inflight, s);
    reached' := CommitNext(ViewOf(l.tables, s), ViewOf(ApplyAll(l.tables, l.inflight), s), ViewOf(start, s),
                           Queue(l.acked, s), On(l.inflight, s), Queue(l.appended, s), reached);
  }

  lemma CommitNext(view: View, view': View, start: View, acked: seq<Event>, mine: seq<Event>, history: seq<Event>, reached: nat)
    returns (reached': nat)
    requires CatchesUp(view, start, history, |acked|, reached) && view' == SeeAll(view, mine) && acked + mine <= history
    ensures CatchesUp(view', start, history, |acked|, reached') && CatchesUp(view', start, history, |acked| + |mine|, reached')
  {
    PieceIsNext(acked, mine, history);
    reached' := CommitCatchesUp(view, view', start, history, |acked|, reached, mine);
  }

  /** A late commit that comes before anything more of the session was acknowledged is a commit of what comes next. */
  lemma LateCommitStore(l: Link, k: nat, start: Tables, max: nat, s: string)
    requires 2 <= max && LateInv(l, s) && StoreInv(l, start, s) && Enabled(l, LateCommit(k), max)
    ensures StoreInv(Apply(l, LateCommit(k), max), start, s)
  {
    var l', late := Apply(l, LateCommit(k), max), l.late[k];
    if !l'.overflowed && s !in l'.stale {
      var reached: nat :| Reaches(l, start, s, reached);
      assert late in l.late;
      NotOutdated(l, late, s);
      var reached' := PieceCatchesUp(l, late, start, s, reached);
      assert Reaches(l', start, s, reached');
    }
  }

  lemma NotOutdated(l: Link, late: Late, s: string)
    requires s !in Outdated(l, late)
    ensures On(late.batch, s) == [] || Queue(late.ackedThen, s) == Queue(l.acked, s)
  {
    if On(late.batch, s) != [] {
      OnSomething(late.batch, s);
    }
  }

  lemma PieceCatchesUp(l: Link, late: Late, start: Tables, s: string, reached: nat) returns (reached': nat)
    requires IsPieceOf(late, Queue(l.acked, s), Queue(l.appended, s), s) && Reaches(l, start, s, reached)
    requires On(late.batch, s) == [] || Queue(late.ackedThen, s) == Queue(l.acked, s)
    ensures CatchesUp(ViewOf(ApplyAll(l.tables, late.batch), s), ViewOf(start, s), Queue(l.appended, s), |Queue(l.acked, s)|, reached')
  {
    ViewOfBatch(l.tables, late.batch, s);
    if On(late.batch, s) == [] {
      reached' := reached;
    } else {
      reached' := CommitNext(ViewOf(l.tables, s), ViewOf(ApplyAll(l.tables, late.batch), s), ViewOf(start, s),
                             Queue(l.acked, s), On(late.batch, s), Queue(l.appended, s), reached);
    }
  }

  lemma PieceIsNext(acked: seq<Event>, mine: seq<Event>, history: seq<Event>)
    requires acked + mine <= history
    ensures |acked| + |mine| <= |history| && history[|acked|..|acked| + |mine|] == mine
  {
    assert history[..|acked| + |mine|] == acked + mine;
  }

  lemma {:induction false} OnSomething(events: seq<Event>, s: string)
    requires On(events, s) != []
    ensures exists e | e in events :: e.session == s
  {
    if events[|events| - 1].session != s {
      OnSomething(events[..|events| - 1], s);
    }
  }

  lemma OtherStore(l: Link, a: Action, start: Tables, max: nat, s: string)
    requires 2 <= max && StoreInv(l, start, s) && Enabled(l, a, max) && (a.Append? || a.TakeBatch? || a.Refused?)
    ensures StoreInv(Apply(l, a, max), start, s)
  {
    var l', history := Apply(l, a, max), Queue(l.appended, s);
    if !l'.overflowed && s !in l'.stale {
      var reached: nat :| Reaches(l, start, s, reached);
      if a.Append? && s == a.session {
        HistoryGrows(ViewOf(l.tables, s), ViewOf(start, s), history, |Queue(l.acked, s)|, reached,
                     Added(Queue(l.queues, s), a.ev, max));
      }
      assert Reaches(l', start, s, reached);
    }
  }

  lemma StepStore(l: Link, a: Action, start: Tables, max: nat, s: string)
    requires 2 <= max && HistoryInv(l, s) && LateInv(l, s) && StoreInv(l, start, s) && Enabled(l, a, max)
    ensures StoreInv(Apply(l, a, max), start, s)
  {
    match a {
      case Acknowledged => CommitStore(l, a, start, max, s);
      case AnswerLost(_) => CommitStore(l, a, start, max, s);
      case LateCommit(k) => LateCommitStore(l, k, start, max, s);
      case _ => OtherStore(l, a, start, max, s);
    }
  }

  /** What was given up stays a piece of the growing history. */
  lemma StepLate(l: Link, a: Action, max: nat, s: string)
    requires 2 <= max && HistoryInv(l, s) && LateInv(l, s) && Enabled(l, a, max)
    ensures LateInv(Apply(l, a, max), s)
  {
    if a.Acknowledged? {
      AcknowledgedLate(l, max, s);
    } else if a.Refused? {
      RefusedLate(l, a, max, s);
    } else if a.LateCommit? {
      assert forall late | late in Apply(l, a, max).late :: late in l.late;
    }
  }

  lemma AcknowledgedLate(l: Link, max: nat, s: string)
    requires 2 <= max && HistoryInv(l, s) && LateInv(l, s) && Enabled(l, Acknowledged, max)
    ensures LateInv(Apply(l, Acknowledged, max), s)
  {
    if !Apply(l, Acknowledged, max).overflowed {
      AckedQueue(l, s, max);
    }
  }

  lemma RefusedLate(l: Link, a: Action, max: nat, s: string)
    requires 2 <= max && HistoryInv(l, s) && LateInv(l, s) && Enabled(l, a, max) && a.Refused?
    ensures LateInv(Apply(l, a, max), s)
  {
    if !Apply(l, a, max).overflowed {
      PieceGivenUp(l, s);
    }
  }

  lemma PieceGivenUp(l: Link, s: string)
    requires Kept(l, s) == Queue(l.appended, s)
    ensures IsPieceOf(Late(l.inflight, l.acked), Queue(l.acked, s), Queue(l.appended, s), s)
  {
    AckedKept(Queue(l.acked, s), On(l.inflight, s), Queue(l.queues, s));
    assert Queue(l.acked, s) + On(l.inflight, s) <= Queue(l.acked, s) + On(l.inflight, s) + ([] + Queue(l.queues, s));
  }

  // -------------------------------------------------------------- over whole runs

  ghost predicate IsTrace(l: Link, actions: seq<Action>, max: nat)
    requires 2 <= max
    decreases |actions|
  {
    actions != [] ==> Enabled(l, actions[0], max) && IsTrace(Apply(l, actions[0], max), actions[1..], max)
  }

  ghost function After(l: Link, actions: seq<Action>, max: nat): Link
    requires 2 <= max && IsTrace(l, actions, max)
    decreases |actions|
  {
    if actions == [] then l else After(Apply(l, actions[0], max), actions[1..], max)
  }

  lemma {:induction false} TraceInv(l: Link, actions: seq<Action>, max: nat, start: Tables, s: string)
    requires 2 <= max && IsTrace(l, actions, max) && OrderInv(l, max) && LateInv(l, s) && StoreInv(l, start, s)
    ensures OrderInv(After(l, actions, max), max) && StoreInv(After(l, actions, max), start, s)
    decreases |actions|
  {
    if actions != [] {
      StepOrder(l, actions[0], max);
      assert HistoryInv(l, s);
      StepLate(l, actions[0], max, s);
      StepStore(l, actions[0], start, max, s);
      TraceInv(Apply(l, actions[0], max), actions[1..], max, start, s);
    }
  }

  lemma InitInv(start: Tables, max: nat, s: string)
    requires 2 <= max
    ensures OrderInv(Init(start), max) && LateInv(Init(start), s) && StoreInv(Init(start), start, s)
  {
    assert Reaches(Init(start), start, s, 0);
  }

  /**
   * Emitter order and bound: per session, what was acknowledged, is in flight and is queued is, in
   * this order, a subsequence of what was appended; all of it unless a buffer overflowed; and no
   * buffer exceeds its bound.
   */
  lemma OrderAndBound(start: Tables, actions: seq<Action>, max: nat, s: string)
    requires 2 <= max && IsTrace(Init(start), actions, max)
    ensures var l := After(Init(start), actions, max);
      && IsSubsequence(Kept(l, s), Queue(l.appended, s))
      && (!l.overflowed ==> Kept(l, s) == Queue(l.appended, s))
      && |Queue(l.queues, s)| <= max
  {
    InitInv(start, max, s);
    TraceInv(Init(start), actions, max, start, s);
    assert HistoryInv(After(Init(start), actions, max), s);
  }

  /**
   * Once a session's buffer has drained without overflow, its segments and status fields are what
   * applying each of its events once, in append order, makes of them, whatever was lost, retried, or committed late,
   * as long as no batch was committed after later acknowledgements of the session.
   */
  lemma AtLeastOnceIsExactlyOnce(start: Tables, actions: seq<Action>, max: nat, s: string)
    requires 2 <= max && IsTrace(Init(start), actions, max)
    requires var l := After(Init(start), actions, max);
      !l.overflowed && s !in l.stale && Queue(l.queues, s) == [] && On(l.inflight, s) == []
    ensures var l := After(Init(start), actions, max);
      ViewOf(l.tables, s) == SeeAll(ViewOf(start, s), Queue(l.appended, s))
  {
    InitInv(start, max, s);
    TraceInv(Init(start), actions, max, start, s);
    var l := After(Init(start), actions, max);
    assert HistoryInv(l, s);
    var history := Queue(l.appended, s);
    var reached: nat :| Reaches(l, start, s, reached);
    assert history[|history|..|history|] == [] && history[..|history|] == history;
    assert |Queue(l.acked, s)| == |history|;
  }

  /**
   * A commit out of turn: after whatever else `rest` is still delivered, the session looks as it would have looked
   * without it exactly when each row and field the batch writes is written again by the rest or holds that very value
   * already.
   */
  lemma StaleCommitHarmlessIff(l: Link, k: nat, max: nat, s: string, rest: seq<Event>)
    requires 2 <= max && Enabled(l, LateCommit(k), max)
    ensures var view, after := ViewOf(l.tables, s), ViewOf(Apply(l, LateCommit(k), max).tables, s);
      SeeAll(after, rest) == SeeAll(view, rest) <==>
      AgreesOutside(view, NetWrites(On(l.late[k].batch, s)), NetWrites(rest))
  {
    ViewOfBatch(l.tables, l.late[k].batch, s);
    LateCommitHarmlessIff(ViewOf(l.tables, s), On(l.late[k].batch, s), rest);
  }

  /**
   * What an overflow costs: an append lets go of exactly the oldest |queue| - (max - 2) queued events of its session,
   * none below the bound, and touches nothing else of what was acknowledged, is in flight or is queued.
   */
  lemma AppendLosesOldest(l: Link, session: string, ev: Event, max: nat)
    requires 2 <= max && ev.session == session
    ensures var l' := Apply(l, Append(session, ev), max);
      && l'.acked == l.acked && l'.inflight == l.inflight && l'.tables == l.tables
      && KeepsNewest(Queue(l.queues, session), ev, session, max, Queue(l'.queues, session))
      && forall s | s != session :: Queue(l'.queues, s) == Queue(l.queues, s)
  {
    EnqueuedKeepsNewest(Queue(l.queues, session), ev, session, max);
  }

  /** What a failed post costs: a session keeps the newest of the batch and its queue that fit. */
  lemma RestoreLosesOldest(l: Link, a: Action, max: nat, s: string)
    requires 2 <= max && BuffersInv(l, max) && Enabled(l, a, max) && (a.AnswerLost? || a.Refused?)
    ensures IsTail(Queue(Apply(l, a, max).queues, s), On(l.inflight, s) + Queue(l.queues, s), max)
  {
    RestoredIsTail(l.queues, l.inflight, max, a.back);
  }
}
