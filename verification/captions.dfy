/** The audience view's caption cache: apps/web/src/lib/captions.ts. */
module Captions {
  import opened Options
  import opened SortedIndexes

  const MAX_CHUNKS: nat := 64

  /** Which slot of a chunk a segment fills. */
  datatype Track = Original | Translation(language: string)

  datatype Segment = Segment(run: string, chunkIndex: nat, track: Track, text: string)

  datatype Chunk = Chunk(original: Option<Segment>, translations: map<string, Segment>)

  type Chunks = map<nat, Chunk>

  const EmptyChunk := Chunk(None, map[])

  function Write(chunk: Chunk, segment: Segment): Chunk {
    match segment.track
    case Original => chunk.(original := Some(segment))
    case Translation(language) => chunk.(translations := chunk.translations[language := segment])
  }

  function Read(chunk: Chunk, track: Track): Option<Segment> {
    match track
    case Original => chunk.original
    case Translation(language) => if language in chunk.translations then Some(chunk.translations[language]) else None
  }

  /** Deletes the lowest keys until MAX_CHUNKS are left. */
  ghost function Evict(chunks: Chunks): Chunks
    decreases |chunks|
  {
    if |chunks| <= MAX_CHUNKS then chunks else
    assert |chunks.Keys| == |chunks|;
    Evict(chunks - {Lowest(chunks.Keys)})
  }

  ghost function Upsert(chunks: Chunks, segment: Segment): Chunks {
    var entry := if segment.chunkIndex in chunks then chunks[segment.chunkIndex] else EmptyChunk;
    Evict(chunks[segment.chunkIndex := Write(entry, segment)])
  }

  ghost function UpsertAll(chunks: Chunks, segments: seq<Segment>): Chunks {
    if segments == [] then chunks else Upsert(UpsertAll(chunks, segments[..|segments| - 1]), segments[|segments| - 1])
  }

  // ------------------------------------------------------------- the reference

  /** Every chunk index a history of segments mentions. */
  function Seen(history: seq<Segment>): set<nat> {
    set s | s in history :: s.chunkIndex
  }

  /** Everything ever written to one chunk, nothing evicted: the last segment per track. */
  function EntryOf(history: seq<Segment>, index: nat): Chunk {
    if history == [] then EmptyChunk else
    var before, last := EntryOf(history[..|history| - 1], index), history[|history| - 1];
    if last.chunkIndex == index then Write(before, last) else before
  }

  /** keys are the MAX_CHUNKS largest elements of seen, or all of it. */
  ghost predicate IsNewest(keys: set<nat>, seen: set<nat>) {
    && keys <= seen && |keys| <= MAX_CHUNKS
    && (keys != seen ==> |keys| == MAX_CHUNKS)
    && forall k, x | k in keys && x in seen && x !in keys :: x < k
  }

  ghost predicate IsCacheOf(chunks: Chunks, history: seq<Segment>) {
    IsNewest(chunks.Keys, Seen(history)) && forall k | k in chunks :: chunks[k] == EntryOf(history, k)
  }

  /** There is only one set of newest elements. */
  lemma NewestIsUnique(a: set<nat>, b: set<nat>, seen: set<nat>)
    requires IsNewest(a, seen) && IsNewest(b, seen)
    ensures a == b
  {
    assert a <= b || b <= a;
    if a <= b && a != b {
      StrictSubset(a, b);
    }
    if b <= a && a != b {
      StrictSubset(b, a);
    }
  }

  lemma StrictSubset(a: set<nat>, b: set<nat>)
    requires a <= b && a != b
    ensures |a| < |b|
  {
    var extra := b - a;
    assert b == a + extra;
    assert extra != {};
  }

  lemma {:induction false} UnseenIsEmpty(history: seq<Segment>, index: nat)
    requires index !in Seen(history)
    ensures EntryOf(history, index) == EmptyChunk
  {
    if history != [] {
      var front, last := history[..|history| - 1], history[|history| - 1];
      assert last in history && forall s | s in front :: s in history;
      UnseenIsEmpty(front, index);
    }
  }

  lemma SeenGrows(history: seq<Segment>, segment: Segment)
    ensures Seen(history + [segment]) == Seen(history) + {segment.chunkIndex}
    ensures forall k | k != segment.chunkIndex :: EntryOf(history + [segment], k) == EntryOf(history, k)
    ensures EntryOf(history + [segment], segment.chunkIndex) == Write(EntryOf(history, segment.chunkIndex), segment)
  {
    var longer := history + [segment];
    assert longer[..|longer| - 1] == history;
    assert forall s :: s in longer <==> s in history || s == segment;
    assert Seen(longer) == Seen(history) + {segment.chunkIndex};
  }

  /** One key too many: the lowest one goes, and nothing else changes. */
  lemma EvictOne(chunks: Chunks)
    requires |chunks| <= MAX_CHUNKS + 1
    ensures |chunks| <= MAX_CHUNKS ==> Evict(chunks) == chunks
    ensures |chunks| > MAX_CHUNKS ==> chunks.Keys != {} && Evict(chunks) == chunks - {Lowest(chunks.Keys)}
  {
    if |chunks| > MAX_CHUNKS {
      assert |chunks.Keys| == |chunks|;
      var rest := chunks - {Lowest(chunks.Keys)};
      assert rest.Keys == chunks.Keys - {Lowest(chunks.Keys)};
      assert |rest| == |rest.Keys| == |chunks| - 1;
    }
  }

  lemma NewestAfterInsert(keys: set<nat>, seen: set<nat>, index: nat)
    requires IsNewest(keys, seen)
    ensures var more := keys + {index};
      && (|more| <= MAX_CHUNKS ==> IsNewest(more, seen + {index}))
      && (|more| > MAX_CHUNKS ==> |more| == MAX_CHUNKS + 1 && IsNewest(more - {Lowest(more)}, seen + {index}))
  {
    var more := keys + {index};
    if index in keys {
      assert more == keys && seen + {index} == seen;
    } else {
      assert |more| == |keys| + 1;
      if |more| <= MAX_CHUNKS {
        assert more == seen + {index};
      } else {
        var lowest := Lowest(more);
        assert |more - {lowest}| == MAX_CHUNKS;
        forall k, x | k in more - {lowest} && x in seen + {index} && x !in more - {lowest}
          ensures x < k
        {
          assert x == lowest || (x in seen && x !in keys);
          if x != lowest && k == index {
            assert lowest in keys;
          }
        }
      }
    }
  }

  /** One upsert keeps the cache right, also for an index that was evicted long ago. */
  lemma UpsertKeepsCache(chunks: Chunks, history: seq<Segment>, segment: Segment)
    requires IsCacheOf(chunks, history)
    ensures IsCacheOf(Upsert(chunks, segment), history + [segment])
  {
    SeenGrows(history, segment);
    UpsertKeys(chunks, segment);
    NewestAfterInsert(chunks.Keys, Seen(history), segment.chunkIndex);
    var after := Upsert(chunks, segment);
    forall k | k in after
      ensures after[k] == EntryOf(history + [segment], k)
    {
      UpsertKeepsEntry(chunks, history, segment, k);
    }
  }

  lemma UpsertKeepsEntry(chunks: Chunks, history: seq<Segment>, segment: Segment, k: nat)
    requires IsCacheOf(chunks, history) && k in Upsert(chunks, segment)
    ensures Upsert(chunks, segment)[k] == EntryOf(history + [segment], k)
  {
    SeenGrows(history, segment);
    UpsertKeys(chunks, segment);
    if k !in chunks {
      if k in Seen(history) {
        EvictedStaysOut(chunks.Keys, Seen(history), k);
      } else {
        UnseenIsEmpty(history, k);
      }
    }
  }

  /** The keys after an upsert: the index is added, and past MAX_CHUNKS the lowest key goes. */
  lemma UpsertKeys(chunks: Chunks, segment: Segment)
    requires |chunks.Keys| <= MAX_CHUNKS
    ensures var more, after := chunks.Keys + {segment.chunkIndex}, Upsert(chunks, segment);
      && after.Keys == (if |more| <= MAX_CHUNKS then more else more - {Lowest(more)})
      && forall k | k in after ::
           after[k] == if k == segment.chunkIndex
             then Write(if k in chunks then chunks[k] else EmptyChunk, segment)
             else chunks[k]
  {
    var index := segment.chunkIndex;
    var written := chunks[index := Write(if index in chunks then chunks[index] else EmptyChunk, segment)];
    SizeAfterWrite(chunks, index, written[index]);
    EvictOne(written);
  }

  lemma SizeAfterWrite(chunks: Chunks, index: nat, entry: Chunk)
    ensures var written := chunks[index := entry];
      written.Keys == chunks.Keys + {index} && |written| == |written.Keys| <= |chunks.Keys| + 1
  {
    var written := chunks[index := entry];
    assert written.Keys == chunks.Keys + {index};
    assert |written.Keys| == |written|;
  }

  /** An index that was evicted is evicted again at once when a late segment brings it back. */
  lemma EvictedStaysOut(keys: set<nat>, seen: set<nat>, index: nat)
    requires IsNewest(keys, seen) && index !in keys && index in seen
    ensures |keys + {index}| == MAX_CHUNKS + 1 && Lowest(keys + {index}) == index
  {
    assert forall k | k in keys :: index < k;
    assert IsLowest(keys + {index}, index);
  }

  lemma {:induction false} UpsertAllKeepsCache(chunks: Chunks, history: seq<Segment>, segments: seq<Segment>)
    requires IsCacheOf(chunks, history)
    ensures IsCacheOf(UpsertAll(chunks, segments), history + segments)
  {
    if segments == [] {
      assert history + segments == history;
    } else {
      var front, last := segments[..|segments| - 1], segments[|segments| - 1];
      UpsertAllKeepsCache(chunks, history, front);
      UpsertKeepsCache(UpsertAll(chunks, front), history + front, last);
      assert history + front + [last] == history + segments;
    }
  }

  // ------------------------------------------------- arrival order does not matter

  /** Two segments for the same slot are the same segment. */
  ghost predicate WriteConsistent(history: seq<Segment>) {
    forall s, t | s in history && t in history && s.chunkIndex == t.chunkIndex && s.track == t.track :: s == t
  }

  /** A slot holds a segment of the history for that slot, if there is one. */
  lemma {:induction false} EntryHoldsWrites(history: seq<Segment>, index: nat, track: Track)
    ensures var r := Read(EntryOf(history, index), track);
      && (r.Some? ==> r.value in history && r.value.chunkIndex == index && r.value.track == track)
      && (forall s | s in history && s.chunkIndex == index && s.track == track :: r.Some?)
  {
    if history != [] {
      var front, last := history[..|history| - 1], history[|history| - 1];
      assert history == front + [last];
      EntryHoldsWrites(front, index, track);
    }
  }

  /** And it is the last one that was written to the slot. */
  lemma {:induction false} EntryHoldsLast(history: seq<Segment>, i: nat)
    requires i < |history|
    requires forall j | i < j < |history| ::
      history[j].chunkIndex != history[i].chunkIndex || history[j].track != history[i].track
    ensures Read(EntryOf(history, history[i].chunkIndex), history[i].track) == Some(history[i])
  {
    if i < |history| - 1 {
      EntryHoldsLast(history[..|history| - 1], i);
    }
  }

  /**
   * Any two arrivals of the same segments, whatever their order, batching or repetition, leave the
   * same cache.
   */
  lemma ArrivalOrderIrrelevant(a: Chunks, b: Chunks, historyA: seq<Segment>, historyB: seq<Segment>)
    requires IsCacheOf(a, historyA) && IsCacheOf(b, historyB)
    requires WriteConsistent(historyA) && forall s :: s in historyA <==> s in historyB
    ensures a == b
  {
    assert Seen(historyA) == Seen(historyB);
    NewestIsUnique(a.Keys, b.Keys, Seen(historyA));
    forall k | k in a
      ensures a[k] == b[k]
    {
      SameEntries(historyA, historyB, k);
    }
  }

  lemma SameEntries(historyA: seq<Segment>, historyB: seq<Segment>, k: nat)
    requires WriteConsistent(historyA) && forall s :: s in historyA <==> s in historyB
    ensures EntryOf(historyA, k) == EntryOf(historyB, k)
  {
    var x, y := EntryOf(historyA, k), EntryOf(historyB, k);
    forall track
      ensures Read(x, track) == Read(y, track)
    {
      EntryHoldsWrites(historyA, k, track);
      EntryHoldsWrites(historyB, k, track);
    }
    assert Read(x, Original) == Read(y, Original);
    forall language
      ensures language in x.translations <==> language in y.translations
      ensures language in x.translations ==> x.translations[language] == y.translations[language]
    {
      assert Read(x, Translation(language)) == Read(y, Translation(language));
    }
    assert x.translations == y.translations;
  }

  // ------------------------------------------------------------------ the reducer

  datatype State = State(run: Option<string>, status: Option<string>, chunks: Chunks, restarted: bool)

  datatype Action =
    | SegmentArrived(segment: Segment)
    | StatusArrived(run: string, status: string)
    | Merge(segments: seq<Segment>)

  function OfRun(segments: seq<Segment>, run: string): seq<Segment> {
    if segments == [] then [] else
    OfRun(segments[..|segments| - 1], run) +
    if segments[|segments| - 1].run == run then [segments[|segments| - 1]] else []
  }

  /** The initial state from server-rendered segments; they are not filtered by run. */
  ghost function CreateState(segments: seq<Segment>, status: Option<string>): State {
    State(if segments == [] then None else Some(segments[0].run), status, UpsertAll(map[], segments), false)
  }

  function MergeRun(run: Option<string>, segments: seq<Segment>): Option<string> {
    if run.Some? then run else if segments == [] then None else Some(segments[0].run)
  }

  ghost function Reduce(state: State, action: Action): State {
    match action
    case SegmentArrived(segment) =>
      if state.run.Some? && segment.run != state.run.value then
        state.(run := Some(segment.run), chunks := Upsert(map[], segment), restarted := true)
      else
        state.(run := Some(segment.run), chunks := Upsert(state.chunks, segment))
    case StatusArrived(run, status) =>
      var changed := state.run.Some? && run != state.run.value;
      State(Some(run), Some(status), if changed then map[] else state.chunks, state.restarted || changed)
    case Merge(segments) =>
      var run := MergeRun(state.run, segments);
      state.(run := run, chunks := if run.None? then state.chunks else UpsertAll(state.chunks, OfRun(segments, run.value)))
  }

  ghost function ReduceAll(state: State, actions: seq<Action>): State {
    if actions == [] then state else Reduce(ReduceAll(state, actions[..|actions| - 1]), actions[|actions| - 1])
  }

  /** evict: the newest MAX_CHUNKS entries stay, unchanged, and all others go. */
  method EvictOldest(chunks: Chunks) returns (kept: Chunks)
    ensures IsNewest(kept.Keys, chunks.Keys) && forall k | k in kept :: kept[k] == chunks[k]
    ensures kept == Evict(chunks)
  {
    kept := chunks;
    while |kept| > MAX_CHUNKS
      invariant Evict(kept) == Evict(chunks)
      decreases |kept|
    {
      assert |kept.Keys| == |kept|;
      var oldest := MinPending(kept.Keys);
      var rest := kept - {oldest};
      assert rest.Keys == kept.Keys - {oldest};
      kept := rest;
    }
    EvictKeepsNewest(chunks);
  }

  lemma {:induction false} EvictKeepsNewest(chunks: Chunks)
    ensures var kept := Evict(chunks);
      IsNewest(kept.Keys, chunks.Keys) && forall k | k in kept :: kept[k] == chunks[k]
    decreases |chunks|
  {
    assert |chunks.Keys| == |chunks|;
    if |chunks| > MAX_CHUNKS {
      var lowest := Lowest(chunks.Keys);
      var rest := chunks - {lowest};
      assert rest.Keys == chunks.Keys - {lowest} && |rest| == |rest.Keys|;
      EvictKeepsNewest(rest);
      var kept := Evict(rest);
      if |rest.Keys| == MAX_CHUNKS {
        assert kept == rest;
      }
    }
  }

  method UpsertSegment(chunks: Chunks, segment: Segment) returns (next: Chunks)
    ensures next == Upsert(chunks, segment)
  {
    var entry := if segment.chunkIndex in chunks then chunks[segment.chunkIndex] else EmptyChunk;
    match segment.track {
      case Original => entry := entry.(original := Some(segment));
      case Translation(language) => entry := entry.(translations := entry.translations[language := segment]);
    }
    next := chunks[segment.chunkIndex := entry];
    next := EvictOldest(next);
  }

  method CreateCaptionsState(segments: seq<Segment>, status: Option<string>) returns (state: State)
    ensures state == CreateState(segments, status)
  {
    var chunks: Chunks := map[];
    for i := 0 to |segments|
      invariant chunks == UpsertAll(map[], segments[..i])
    {
      assert segments[..i + 1][..i] == segments[..i];
      chunks := UpsertSegment(chunks, segments[i]);
    }
    assert segments[..|segments|] == segments;
    state := State(if |segments| == 0 then None else Some(segments[0].run), status, chunks, false);
  }

  /** mergeSegments: a loop that skips other runs and upserts one segment at a time. */
  method MergeSegments(state: State, segments: seq<Segment>) returns (merged: State)
    ensures merged == Reduce(state, Merge(segments))
    ensures state.run.Some? && (forall i | 0 <= i < |segments| :: segments[i].run == state.run.value) ==>
      merged == ReduceAll(state, Arrivals(segments))
  {
    var run := MergeRun(state.run, segments);
    var chunks := state.chunks;
    for i := 0 to |segments|
      invariant chunks == Backfilled(state.chunks, segments, i, run)
    {
      BackfillOneMore(state.chunks, segments, i, run);
      if run.None? || segments[i].run == run.value {
        chunks := UpsertSegment(chunks, segments[i]);
      }
    }
    BackfilledAll(state, segments);
    merged := state.(run := run, chunks := chunks);
    AllOfTheRun(state, segments);
  }

  /** The map after the first i segments of a backfill. */
  ghost function Backfilled(chunks: Chunks, segments: seq<Segment>, i: nat, run: Option<string>): Chunks
    requires i <= |segments|
  {
    if run.Some? then UpsertAll(chunks, OfRun(segments[..i], run.value)) else chunks
  }

  lemma {:induction false} BackfillOneMore(chunks: Chunks, segments: seq<Segment>, i: nat, run: Option<string>)
    requires i < |segments| && run.Some?
    ensures Backfilled(chunks, segments, 0, run) == chunks
    ensures var before := Backfilled(chunks, segments, i, run);
      Backfilled(chunks, segments, i + 1, run) ==
      if segments[i].run == run.value then Upsert(before, segments[i]) else before
  {
    var kept := OfRun(segments[..i], run.value);
    assert segments[..0] == [];
    assert segments[..i + 1][..i] == segments[..i];
    OneMoreUpsert(chunks, kept, segments[i]);
    assert kept + [] == kept;
  }

  lemma {:induction false} BackfilledAll(state: State, segments: seq<Segment>)
    ensures var run := MergeRun(state.run, segments);
      Reduce(state, Merge(segments)) == state.(run := run, chunks := Backfilled(state.chunks, segments, |segments|, run))
  {
    assert segments[..|segments|] == segments;
  }

  lemma {:induction false} AllOfTheRun(state: State, segments: seq<Segment>)
    ensures state.run.Some? && (forall i | 0 <= i < |segments| :: segments[i].run == state.run.value) ==>
      Reduce(state, Merge(segments)) == ReduceAll(state, Arrivals(segments))
  {
    if state.run.Some? && forall i | 0 <= i < |segments| :: segments[i].run == state.run.value {
      MergeIsArrivals(state, segments);
    }
  }

  /**
   * The run a view shows and the segments it has taken in since that run began, in arrival order, for a view that
   * started with a run and a history.
   */
  function TakenFrom(run: Option<string>, history: seq<Segment>, actions: seq<Action>): (taken: (Option<string>, seq<Segment>)) {
    if actions == [] then (run, history) else
    var (shown, taken) := TakenFrom(run, history, actions[..|actions| - 1]);
    match actions[|actions| - 1]
    case SegmentArrived(segment) =>
      (Some(segment.run), (if shown == Some(segment.run) || shown.None? then taken else []) + [segment])
    case StatusArrived(other, _) => (Some(other), if shown == Some(other) || shown.None? then taken else [])
    case Merge(segments) =>
      var merged := MergeRun(shown, segments);
      (merged, if merged.None? then taken else taken + OfRun(segments, merged.value))
  }

  /**
   * From any state whose map is the cache of a history, after any sequence of live segments, status events and
   * backfills, the view holds the newest 64 chunks of what it has taken in, each with the last segment per track.
   */
  lemma {:induction false} CacheIsKept(start: State, history: seq<Segment>, actions: seq<Action>)
    requires IsCacheOf(start.chunks, history)
    ensures var after, taken := ReduceAll(start, actions), TakenFrom(start.run, history, actions);
      after.run == taken.0 && IsCacheOf(after.chunks, taken.1)
  {
    if actions != [] {
      var front, last := actions[..|actions| - 1], actions[|actions| - 1];
      CacheIsKept(start, history, front);
      ReduceKeepsCache(ReduceAll(start, front), TakenFrom(start.run, history, front).1, last);
    }
  }

  lemma ReduceKeepsCache(before: State, history: seq<Segment>, action: Action)
    requires IsCacheOf(before.chunks, history)
    ensures var after, taken := Reduce(before, action), TakenFrom(before.run, history, [action]);
      after.run == taken.0 && IsCacheOf(after.chunks, taken.1)
  {
    assert [action][..0] == [] && Seen([]) == {};
    match action {
      case SegmentArrived(segment) =>
        if before.run.Some? && segment.run != before.run.value {
          UpsertKeepsCache(map[], [], segment);
        } else {
          UpsertKeepsCache(before.chunks, history, segment);
        }
      case StatusArrived(_, _) =>
      case Merge(segments) =>
        var run := MergeRun(before.run, segments);
        if run.Some? {
          UpsertAllKeepsCache(before.chunks, history, OfRun(segments, run.value));
        }
    }
  }

  /**
   * What was taken in belongs to the run shown, except for the segments the view started with; and once the view has
   * restarted on another run none of those is left.
   */
  lemma {:induction false} TakenIsOfTheRun(start: State, history: seq<Segment>, actions: seq<Action>)
    requires !start.restarted 
    ensures var after, taken := ReduceAll(start, actions), TakenFrom(start.run, history, actions);
      && after.run == taken.0
      && forall s | s in taken.1 :: Some(s.run) == taken.0 || (s in history && !after.restarted)
  {
    if actions != [] {
      var front, last := actions[..|actions| - 1], actions[|actions| - 1];
      TakenIsOfTheRun(start, history, front);
      if last.Merge? {
        var run := MergeRun(ReduceAll(start, front).run, last.segments);
        if run.Some? {
          OfRunIsOfRun(last.segments, run.value);
        }
      }
    }
  }

  lemma {:induction false} OfRunIsOfRun(segments: seq<Segment>, run: string)
    ensures forall s | s in OfRun(segments, run) :: s.run == run && s in segments
  {
    if segments != [] {
      OfRunIsOfRun(segments[..|segments| - 1], run);
    }
  }

  /** OfRun leaves out no segment of the run, adds none and repeats none. */
  lemma {:induction false} OfRunIsExact(segments: seq<Segment>, run: string, s: Segment)
    ensures multiset(OfRun(segments, run))[s] == if s.run == run then multiset(segments)[s] else 0
  {
    if segments != [] {
      var front, last := segments[..|segments| - 1], segments[|segments| - 1];
      OfRunIsExact(front, run, s);
      assert segments == front + [last];
    }
  }

  /** The server-rendered start is a cache of its segments. */
  lemma CreatedIsNewestCache(segments: seq<Segment>, status: Option<string>)
    ensures IsCacheOf(CreateState(segments, status).chunks, segments)
  {
    assert Seen([]) == {};
    assert [] + segments == segments;
    UpsertAllKeepsCache(map[], [], segments);
  }

  /** What a view that was rendered with some segments has taken in after the actions. */
  ghost function Taken(segments: seq<Segment>, actions: seq<Action>): (taken: seq<Segment>) {
    TakenFrom(CreateState(segments, None).run, segments, actions).1
  }

  /**
   * Every view: rendered on the server with any segments and any status, then fed any actions, it holds the newest 64
   * chunks of what it has taken in, each with the last segment per track.
   */
  lemma ViewIsNewestCache(segments: seq<Segment>, status: Option<string>, actions: seq<Action>)
    ensures IsCacheOf(ReduceAll(CreateState(segments, status), actions).chunks, Taken(segments, actions))
  {
    CreatedIsNewestCache(segments, status);
    CacheIsKept(CreateState(segments, status), segments, actions);
  }

  /** Two views that took in the same segments show the same chunks, however these arrived, rendered or live. */
  lemma SameSegmentsSameView(segmentsA: seq<Segment>, statusA: Option<string>, actionsA: seq<Action>,
                             segmentsB: seq<Segment>, statusB: Option<string>, actionsB: seq<Action>)
    requires WriteConsistent(Taken(segmentsA, actionsA))
    requires forall s :: s in Taken(segmentsA, actionsA) <==> s in Taken(segmentsB, actionsB)
    ensures ReduceAll(CreateState(segmentsA, statusA), actionsA).chunks ==
            ReduceAll(CreateState(segmentsB, statusB), actionsB).chunks
  {
    ViewIsNewestCache(segmentsA, statusA, actionsA);
    ViewIsNewestCache(segmentsB, statusB, actionsB);
    ArrivalOrderIrrelevant(ReduceAll(CreateState(segmentsA, statusA), actionsA).chunks,
                           ReduceAll(CreateState(segmentsB, statusB), actionsB).chunks,
                           Taken(segmentsA, actionsA), Taken(segmentsB, actionsB));
  }

  // ------------------------------------------------- what one action does to the rest

  function Arrivals(segments: seq<Segment>): (actions: seq<Action>) {
    seq(|segments|, i requires 0 <= i < |segments| => SegmentArrived(segments[i]))
  }

  /** A backfill of the run shown puts in the map what receiving its segments one by one would. */
  lemma {:induction false} MergeIsArrivals(state: State, segments: seq<Segment>)
    requires state.run.Some? && forall i | 0 <= i < |segments| :: segments[i].run == state.run.value
    ensures Reduce(state, Merge(segments)) == ReduceAll(state, Arrivals(segments))
  {
    if segments == [] {
      assert Arrivals(segments) == [];
    } else {
      var front, last := segments[..|segments| - 1], segments[|segments| - 1];
      MergeIsArrivals(state, front);
      var actions := Arrivals(segments);
      assert actions[..|actions| - 1] == Arrivals(front);
      assert OfRun(segments, state.run.value) == OfRun(front, state.run.value) + [last];
      OneMoreUpsert(state.chunks, OfRun(front, state.run.value), last);
    }
  }

  lemma OneMoreUpsert(chunks: Chunks, segments: seq<Segment>, last: Segment)
    ensures UpsertAll(chunks, segments + [last]) == Upsert(UpsertAll(chunks, segments), last)
  {
    assert (segments + [last])[..|segments|] == segments;
  }

  /** Segments of other runs in a backfill change nothing. */
  lemma MergeIgnoresOthers(state: State, before: seq<Segment>, other: Segment, behind: seq<Segment>)
    requires state.run.Some? && other.run != state.run.value
    ensures Reduce(state, Merge(before + [other] + behind)) == Reduce(state, Merge(before + behind))
  {
    var run := state.run.value;
    OfRunConcat(before + [other], behind, run);
    OfRunConcat(before, [other], run);
    OfRunConcat(before, behind, run);
    assert [other][..0] == [] && OfRun([], run) == [];
    assert OfRun([other], run) == [];
    assert OfRun(before, run) + [] == OfRun(before, run);
  }

  lemma {:induction false} OfRunConcat(a: seq<Segment>, b: seq<Segment>, run: string)
    ensures OfRun(a + b, run) == OfRun(a, run) + OfRun(b, run)
  {
    if b == [] {
      assert a + b == a;
    } else {
      OfRunConcat(a, b[..|b| - 1], run);
      assert (a + b)[..|a + b| - 1] == a + b[..|b| - 1];
    }
  }

  /** A view that shows no run yet takes that of the first segment of a backfill, and stays as it is without one. */
  lemma MergeIntoNothing(state: State, segments: seq<Segment>)
    requires state.run.None?
    ensures segments == [] ==> Reduce(state, Merge(segments)) == state
    ensures segments != [] ==>
      Reduce(state, Merge(segments)) == Reduce(state.(run := Some(segments[0].run)), Merge(segments))
  {
  }

  predicate NoStatusFrom(actions: seq<Action>, i: nat) {
    forall j | i <= j < |actions| :: !actions[j].StatusArrived?
  }

  /** The i-th action is the last status event. */
  predicate IsLastStatus(actions: seq<Action>, i: nat) {
    i < |actions| && actions[i].StatusArrived? && NoStatusFrom(actions, i + 1)
  }

  /** The status shown is that of the last status event, or the one the view started with. */
  lemma {:induction false} StatusIsLatest(start: State, actions: seq<Action>)
    ensures forall i: nat | IsLastStatus(actions, i) :: ReduceAll(start, actions).status == Some(actions[i].status)
    ensures NoStatusFrom(actions, 0) ==> ReduceAll(start, actions).status == start.status
  {
    if actions != [] {
      var n := |actions| - 1;
      StatusIsLatest(start, actions[..n]);
      StatusOfLast(start, actions);
      forall i: nat | IsLastStatus(actions, i)
        ensures ReduceAll(start, actions).status == Some(actions[i].status)
      {
        assert i < n ==> IsLastStatus(actions[..n], i);
      }
    }
  }

  lemma {:induction false} StatusOfLast(start: State, actions: seq<Action>)
    requires actions != []
    ensures var last := actions[|actions| - 1];
      ReduceAll(start, actions).status ==
      if last.StatusArrived? then Some(last.status) else ReduceAll(start, actions[..|actions| - 1]).status
  {
  }

  /** The i-th action changes the run of a view that shows one. */
  ghost predicate ChangesRun(start: State, actions: seq<Action>, i: nat)
    requires i < |actions|
  {
    var before, after := ReduceAll(start, actions[..i]), ReduceAll(start, actions[..i + 1]);
    before.run.Some? && after.run != before.run
  }

  /** The view says it was restarted exactly when its run has changed. */
  lemma {:induction false} RestartedIffChanged(start: State, actions: seq<Action>)
    ensures ReduceAll(start, actions).restarted <==>
            start.restarted || exists i: nat :: i < |actions| && ChangesRun(start, actions, i)
  {
    if actions != [] {
      var n := |actions| - 1;
      var front := actions[..n];
      RestartedIffChanged(start, front);
      assert actions[..n + 1] == actions;
      forall i: nat | i < n
        ensures ChangesRun(start, actions, i) <==> ChangesRun(start, front, i)
      {
        assert front[..i] == actions[..i] && front[..i + 1] == actions[..i + 1];
      }
      assert ReduceAll(start, actions).restarted <==> ReduceAll(start, front).restarted || ChangesRun(start, actions, n);
    }
  }
}
