/**
 * The contract events and the tables POST writes them to
 * (apps/web/src/app/api/internal/events/route.ts).
 */
module EventStore {
  import opened Options

  datatype SegmentKey = SegmentKey(session: string, run: string, chunkIndex: nat, language: string)

  datatype SegmentRow = SegmentRow(kind: string, text: string, speaker: Option<string>, isFinal: bool,
                                   startMs: nat, endMs: nat, emittedAt: string, latencyMs: nat)

  datatype Event =
    | Segment(session: string, run: string, chunkIndex: nat, language: string, row: SegmentRow)
    | Status(session: string, run: string, status: string, lastError: Option<string>)
    | Log(session: string, run: string, level: string, code: string, message: string)

  datatype SessionRow = SessionRow(status: string, currentRun: Option<string>, lastError: Option<string>)

  datatype Tables = Tables(segments: map<SegmentKey, SegmentRow>, sessions: map<string, SessionRow>, logs: seq<Event>)

  /** The statements one event runs inside the transaction. */
  function ApplyEvent(t: Tables, e: Event): Tables {
    match e
    case Segment(session, run, chunkIndex, language, row) =>
      t.(segments := t.segments[SegmentKey(session, run, chunkIndex, language) := row])
    case Status(session, run, status, lastError) =>
      if session in t.sessions then t.(sessions := t.sessions[session := SessionRow(status, Some(run), lastError)]) else t
    case Log(session, _, level, _, message) =>
      var t' := t.(logs := t.logs + [e]);
      if level == "error" && session in t.sessions
      then t'.(sessions := t.sessions[session := t.sessions[session].(lastError := Some(message))])
      else t'
  }

  function ApplyAll(t: Tables, events: seq<Event>): Tables {
    if events == [] then t else ApplyEvent(ApplyAll(t, events[..|events| - 1]), events[|events| - 1])
  }

  /** The log events of a batch, in order. */
  function LogsOf(events: seq<Event>): seq<Event> {
    if events == [] then []
    else LogsOf(events[..|events| - 1]) + if events[|events| - 1].Log? then [events[|events| - 1]] else []
  }

  /** No log event is left out, added or repeated. */
  lemma {:induction false} LogsOfIsExact(events: seq<Event>, e: Event)
    ensures multiset(LogsOf(events))[e] == if e.Log? then multiset(events)[e] else 0
  {
    if events != [] {
      var front, last := events[..|events| - 1], events[|events| - 1];
      LogsOfIsExact(front, e);
      assert events == front + [last];
    }
  }

  /** A batch inserts a row for each of its log events, in order; logs are never updated. */
  lemma {:induction false} LogsAreAppended(t: Tables, events: seq<Event>)
    ensures ApplyAll(t, events).logs == t.logs + LogsOf(events)
  {
    if events != [] {
      LogsAreAppended(t, events[..|events| - 1]);
    }
  }

  predicate IsFor(e: Event, key: SegmentKey) {
    e.Segment? && e.session == key.session && e.run == key.run && e.chunkIndex == key.chunkIndex && e.language == key.language
  }

  /** The segments row of a key is that of the last event for it. */
  lemma {:induction false} LastRowWins(t: Tables, events: seq<Event>, key: SegmentKey, i: nat)
    requires i < |events| && IsFor(events[i], key) && forall j | i < j < |events| :: !IsFor(events[j], key)
    ensures var after := ApplyAll(t, events).segments; key in after && after[key] == events[i].row
  {
    if i < |events| - 1 {
      LastRowWins(t, events[..|events| - 1], key, i);
    }
  }

  /** A key that no event is for keeps its row, or stays without one. */
  lemma {:induction false} OtherRowsStay(t: Tables, events: seq<Event>, key: SegmentKey)
    requires forall j | 0 <= j < |events| :: !IsFor(events[j], key)
    ensures var after := ApplyAll(t, events).segments;
      (key in after <==> key in t.segments) && (key in t.segments ==> after[key] == t.segments[key])
  {
    if events != [] {
      OtherRowsStay(t, events[..|events| - 1], key);
    }
  }

  predicate SetsStatus(e: Event, session: string) { e.Status? && e.session == session }

  predicate SetsError(e: Event, session: string) {
    SetsStatus(e, session) || (e.Log? && e.session == session && e.level == "error")
  }

  function ErrorOf(e: Event): Option<string>
    requires e.Status? || e.Log?
  {
    if e.Status? then e.lastError else Some(e.message)
  }

  lemma {:induction false} SessionsStay(t: Tables, events: seq<Event>)
    ensures ApplyAll(t, events).sessions.Keys == t.sessions.Keys
  {
    if events != [] {
      SessionsStay(t, events[..|events| - 1]);
    }
  }

  /** A session's status and run are those of its last status event. */
  lemma {:induction false} LastStatusWins(t: Tables, events: seq<Event>, session: string, i: nat)
    requires session in t.sessions
    requires i < |events| && SetsStatus(events[i], session) && forall j | i < j < |events| :: !SetsStatus(events[j], session)
    ensures session in ApplyAll(t, events).sessions
    ensures var row := ApplyAll(t, events).sessions[session];
      row.status == events[i].status && row.currentRun == Some(events[i].run)
  {
    SessionsStay(t, events[..|events| - 1]);
    if i < |events| - 1 {
      LastStatusWins(t, events[..|events| - 1], session, i);
    }
  }

  /** Its last error is that of the last status event or error log entry. */
  lemma {:induction false} LastErrorWins(t: Tables, events: seq<Event>, session: string, i: nat)
    requires session in t.sessions
    requires i < |events| && SetsError(events[i], session) && forall j | i < j < |events| :: !SetsError(events[j], session)
    ensures session in ApplyAll(t, events).sessions
    ensures ApplyAll(t, events).sessions[session].lastError == ErrorOf(events[i])
  {
    SessionsStay(t, events[..|events| - 1]);
    if i < |events| - 1 {
      LastErrorWins(t, events[..|events| - 1], session, i);
    }
  }

  /** A session that no event sets keeps its row. */
  lemma {:induction false} OtherSessionsStay(t: Tables, events: seq<Event>, session: string)
    requires session in t.sessions && forall j | 0 <= j < |events| :: !SetsError(events[j], session)
    ensures session in ApplyAll(t, events).sessions && ApplyAll(t, events).sessions[session] == t.sessions[session]
  {
    if events != [] {
      OtherSessionsStay(t, events[..|events| - 1], session);
    }
  }

  /** Rows that reference a session need it to exist, otherwise the whole transaction rolls back. */
  predicate Accepts(t: Tables, events: seq<Event>) {
    forall e | e in events && !e.Status? :: e.session in t.sessions
  }

  class Store {
    var segments: map<SegmentKey, SegmentRow>
    var sessions: map<string, SessionRow>
    var logs: seq<Event>

    constructor (sessions: map<string, SessionRow>)
      ensures Contents() == Tables(map[], sessions, [])
    {
      this.segments, this.sessions, this.logs := map[], sessions, [];
    }

    ghost function Contents(): Tables
      reads this
    {
      Tables(segments, sessions, logs)
    }

    /** POST: all statements of the batch, or none when one of them violates a foreign key. */
    method Post(events: seq<Event>) returns (accepted: bool)
      modifies this
      ensures accepted == Accepts(old(Contents()), events)
      ensures Contents() == if accepted then ApplyAll(old(Contents()), events) else old(Contents())
      ensures accepted ==> logs == old(logs) + LogsOf(events)
    {
      var committed := (segments, sessions, logs);
      for i := 0 to |events|
        invariant Contents() == ApplyAll(old(Contents()), events[..i])
        invariant sessions.Keys == old(sessions).Keys
        invariant forall k | 0 <= k < i && !events[k].Status? :: events[k].session in old(sessions)
      {
        assert events[..i + 1][..i] == events[..i];
        var e := events[i];
        if !e.Status? && e.session !in sessions {
          segments, sessions, logs := committed.0, committed.1, committed.2;
          assert e in events;
          return false;
        }
        match e {
          case Segment(session, run, chunkIndex, language, row) =>
            segments := segments[SegmentKey(session, run, chunkIndex, language) := row];
          case Status(session, run, status, lastError) =>
            if session in sessions {
              sessions := sessions[session := SessionRow(status, Some(run), lastError)];
            }
          case Log(session, _, level, _, message) =>
            logs := logs + [e];
            if level == "error" {
              sessions := sessions[session := sessions[session].(lastError := Some(message))];
            }
        }
      }
      assert events[..|events|] == events;
      LogsAreAppended(old(Contents()), events);
      return true;
    }
  }

  // ------------------------------------------------------- one session's share

  /** What one session's readers see: its segments and its status fields. Log rows are not part of it. */
  datatype View = View(segments: map<SegmentKey, SegmentRow>, row: Option<SessionRow>)

  function ViewOf(t: Tables, session: string): View {
    View(map k | k in t.segments && k.session == session :: t.segments[k],
         if session in t.sessions then Some(t.sessions[session]) else None)
  }

  function See(v: View, e: Event): View {
    match e
    case Segment(session, run, chunkIndex, language, row) =>
      v.(segments := v.segments[SegmentKey(session, run, chunkIndex, language) := row])
    case Status(_, run, status, lastError) =>
      if v.row.Some? then v.(row := Some(SessionRow(status, Some(run), lastError))) else v
    case Log(_, _, level, _, message) =>
      if level == "error" && v.row.Some? then v.(row := Some(v.row.value.(lastError := Some(message)))) else v
  }

  function SeeAll(v: View, events: seq<Event>): View {
    if events == [] then v else See(SeeAll(v, events[..|events| - 1]), events[|events| - 1])
  }

  /** The events of one session, in order. */
  function On(events: seq<Event>, session: string): seq<Event> {
    if events == [] then [] else
    var last := events[|events| - 1];
    On(events[..|events| - 1], session) + if last.session == session then [last] else []
  }

  lemma {:induction false} OnConcat(a: seq<Event>, b: seq<Event>, session: string)
    ensures On(a + b, session) == On(a, session) + On(b, session)
  {
    if b == [] {
      assert a + b == a;
    } else {
      var front := b[..|b| - 1];
      OnConcat(a, front, session);
      assert (a + b)[..|a + b| - 1] == a + front;
      assert (a + b)[|a + b| - 1] == b[|b| - 1];
    }
  }

  /** On leaves out no event of the session, adds none and repeats none. */
  lemma {:induction false} OnIsExact(events: seq<Event>, session: string, e: Event)
    ensures multiset(On(events, session))[e] == if e.session == session then multiset(events)[e] else 0
  {
    if events != [] {
      var front, last := events[..|events| - 1], events[|events| - 1];
      OnIsExact(front, session, e);
      assert events == front + [last];
    }
  }

  lemma {:induction false} SeeAllConcat(v: View, a: seq<Event>, b: seq<Event>)
    ensures SeeAll(v, a + b) == SeeAll(SeeAll(v, a), b)
  {
    if b == [] {
      assert a + b == a;
    } else {
      var front := b[..|b| - 1];
      SeeAllConcat(v, a, front);
      assert (a + b)[..|a + b| - 1] == a + front;
    }
  }

  lemma ViewOfStep(t: Tables, e: Event, session: string)
    ensures ViewOf(ApplyEvent(t, e), session) == if e.session == session then See(ViewOf(t, session), e) else ViewOf(t, session)
  {
    var t' := ApplyEvent(t, e);
    if e.Segment? {
      assert ViewOf(t', session).segments ==
             if e.session == session then See(ViewOf(t, session), e).segments else ViewOf(t, session).segments;
    }
  }

  /** A session's view of a batch is the effect of its own events, in batch order. */
  lemma {:induction false} ViewOfBatch(t: Tables, events: seq<Event>, session: string)
    ensures ViewOf(ApplyAll(t, events), session) == SeeAll(ViewOf(t, session), On(events, session))
  {
    if events != [] {
      var front, last := events[..|events| - 1], events[|events| - 1];
      ViewOfBatch(t, front, session);
      ViewOfStep(ApplyAll(t, front), last, session);
      SeeAllConcat(ViewOf(t, session), On(front, session), if last.session == session then [last] else []);
    }
  }

  // ------------------------------------------------------ redelivery is absorbed

  /** The net writes of a list of events: the last row per key and the last value per status field. */
  datatype Writes = Writes(segments: map<SegmentKey, SegmentRow>, status: Option<(string, string)>, lastError: Option<Option<string>>)

  function NetWrites(events: seq<Event>): Writes {
    if events == [] then Writes(map[], None, None)
    else Written(NetWrites(events[..|events| - 1]), events[|events| - 1])
  }

  function Written(w: Writes, e: Event): Writes {
    match e
    case Segment(session, run, chunkIndex, language, row) =>
      w.(segments := w.segments[SegmentKey(session, run, chunkIndex, language) := row])
    case Status(_, run, status, lastError) => w.(status := Some((status, run)), lastError := Some(lastError))
    case Log(_, _, level, _, message) => if level == "error" then w.(lastError := Some(Some(message))) else w
  }

  function Overwrite(v: View, w: Writes): View {
    View(v.segments + w.segments,
         if v.row.None? then None else
         var r := v.row.value;
         var r' := if w.status.Some? then r.(status := w.status.value.0, currentRun := Some(w.status.value.1)) else r;
         Some(if w.lastError.Some? then r'.(lastError := w.lastError.value) else r'))
  }

  lemma {:induction false} SeeAllIsOverwrite(v: View, events: seq<Event>)
    ensures SeeAll(v, events) == Overwrite(v, NetWrites(events))
  {
    if events != [] {
      SeeAllIsOverwrite(v, events[..|events| - 1]);
      SeeIsWritten(v, NetWrites(events[..|events| - 1]), events[|events| - 1]);
    }
  }

  lemma SeeIsWritten(v: View, w: Writes, e: Event)
    ensures See(Overwrite(v, w), e) == Overwrite(v, Written(w, e))
  {
  }

  /** Delivering a prefix early, and then everything again, is the same as delivering everything once. */
  lemma ReplayIsAbsorbed(v: View, prefix: seq<Event>, rest: seq<Event>)
    ensures SeeAll(SeeAll(v, prefix), prefix + rest) == SeeAll(v, prefix + rest)
  {
    SeeAllIsOverwrite(v, prefix);
    SeeAllIsOverwrite(SeeAll(v, prefix), prefix);
    assert SeeAll(SeeAll(v, prefix), prefix) == SeeAll(v, prefix);
    SeeAllConcat(SeeAll(v, prefix), prefix, rest);
    SeeAllConcat(v, prefix, rest);
  }

  // --------------------------------------------------------- a commit that comes late

  /** Where nothing later writes again, the view already holds what w writes. */
  predicate AgreesOutside(v: View, w: Writes, later: Writes) {
    && (forall k | k in w.segments && k !in later.segments :: k in v.segments && v.segments[k] == w.segments[k])
    && (v.row.Some? ==>
          && (w.status.Some? && later.status.None? ==>
                v.row.value.status == w.status.value.0 && v.row.value.currentRun == Some(w.status.value.1))
          && (w.lastError.Some? && later.lastError.None? ==> v.row.value.lastError == w.lastError.value))
  }

  /**
   * A batch that is committed once more, out of turn, does no harm to the view in the end exactly when each of its
   * net writes is written again by what follows or is what the view already holds.
   */
  lemma LateCommitHarmlessIff(v: View, batch: seq<Event>, rest: seq<Event>)
    ensures SeeAll(SeeAll(v, batch), rest) == SeeAll(v, rest) <==> AgreesOutside(v, NetWrites(batch), NetWrites(rest))
  {
    var w, later := NetWrites(batch), NetWrites(rest);
    SeeAllIsOverwrite(v, batch);
    SeeAllIsOverwrite(SeeAll(v, batch), rest);
    SeeAllIsOverwrite(v, rest);
    SameSegmentsIff(v.segments, w.segments, later.segments);
    assert Overwrite(Overwrite(v, w), later).row == Overwrite(v, later).row <==>
      (v.row.Some? ==>
         && (w.status.Some? && later.status.None? ==>
               v.row.value.status == w.status.value.0 && v.row.value.currentRun == Some(w.status.value.1))
         && (w.lastError.Some? && later.lastError.None? ==> v.row.value.lastError == w.lastError.value));
  }

  lemma SameSegmentsIff<K, V>(rows: map<K, V>, early: map<K, V>, later: map<K, V>)
    ensures rows + early + later == rows + later <==>
      forall k | k in early && k !in later :: k in rows && rows[k] == early[k]
  {
    var both, one := rows + early + later, rows + later;
    if both == one {
      forall k | k in early && k !in later
        ensures k in rows && rows[k] == early[k]
      {
        assert k in both && both[k] == early[k];
      }
    }
    if forall k | k in early && k !in later :: k in rows && rows[k] == early[k] {
      assert both == one;
    }
  }

  /** Such harm is possible: a run that reported idle shows as running again. */
  lemma LateStatusComesBack(v: View, session: string, run: string)
    requires v.row.Some?
    ensures var running, idle := Status(session, run, "running", None), Status(session, run, "idle", None);
      && SeeAll(v, [running, idle]).row == Some(SessionRow("idle", Some(run), None))
      && SeeAll(SeeAll(v, [running, idle]), [running]).row == Some(SessionRow("running", Some(run), None))
  {
    var running, idle := Status(session, run, "running", None), Status(session, run, "idle", None);
    SeeTwo(v, running, idle);
    SeeTwo(SeeAll(v, [running, idle]), running, running);
  }

  lemma SeeTwo(v: View, a: Event, b: Event)
    ensures SeeAll(v, [a]) == See(v, a) && SeeAll(v, [a, b]) == See(See(v, a), b)
  {
    assert [a][..0] == [] && [a, b][..1] == [a];
  }
}
