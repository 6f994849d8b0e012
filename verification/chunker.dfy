/** The audio clock and the chunker: services/pipeline/internal/chunk/frame.go and chunker.go. */
module Chunkers {
  import opened Options

  type Bytes = seq<bv8>

  const SAMPLE_RATE: nat := 16000
  const BYTES_PER_MS: nat := 32
  const WINDOW_MS: nat := 20
  const WINDOW_BYTES: nat := 640
  const PAUSE_CUT_MS: nat := 250
  const LONG_PAUSE_CUT_MS: nat := 1500
  const LAST_SECOND_MS: nat := 1000

  /** Lengths in milliseconds. */
  datatype Config = Config(min: int, target: int, max: int)

  datatype Window = Window(rms: real, speech: bool)

  datatype Chunk = Chunk(index: nat, startMs: nat, endMs: nat, pcm: Bytes)

  /** The voice detector: from its noise floor and one window's bytes to the next floor and the verdict. */
  type Vad = (real, Bytes) -> (real, Window)

  /** The clock never drifts: positions are the floor of the exact sample time. */
  class Clock {
    var samples: nat

    constructor ()
      ensures samples == 0
    {
      samples := 0;
    }

    method Advance(count: nat) returns (startMs: nat, endMs: nat)
      modifies this
      ensures samples == old(samples) + count
      ensures 16 * startMs <= old(samples) < 16 * (startMs + 1)
      ensures 16 * endMs <= samples < 16 * (endMs + 1)
    {
      var start := samples;
      samples := samples + count;
      startMs, endMs := start * 1000 / SAMPLE_RATE, samples * 1000 / SAMPLE_RATE;
    }

    method NextFrame(pcm: Bytes) returns (startMs: nat)
      modifies this
      ensures samples == old(samples) + |pcm| / 2
      ensures 16 * startMs <= old(samples) < 16 * (startMs + 1)
    {
      var endMs;
      startMs, endMs := Advance(|pcm| / 2);
    }
  }

  // ------------------------------------------------------------------ the windows

  /** Classifying every whole window of a byte stream, left to right. */
  function Classify(vad: Vad, floor: real, bytes: Bytes): (r: (real, seq<Window>))
    ensures |r.1| == |bytes| / WINDOW_BYTES
    decreases |bytes|
  {
    if |bytes| < WINDOW_BYTES then (floor, []) else
    var (floor', w) := vad(floor, bytes[..WINDOW_BYTES]);
    var (last, rest) := Classify(vad, floor', bytes[WINDOW_BYTES..]);
    (last, [w] + rest)
  }

  /** The detector sees each whole window once, in order, with the floor that the window before left. */
  lemma {:induction false} DetectorInOrder(vad: Vad, floor: real, bytes: Bytes) returns (floors: seq<real>)
    ensures var (last, ws) := Classify(vad, floor, bytes);
      && |floors| == |ws| + 1 && floors[0] == floor && floors[|ws|] == last
      && forall k | 0 <= k < |ws| ::
           (floors[k + 1], ws[k]) == vad(floors[k], bytes[WINDOW_BYTES * k..WINDOW_BYTES * k + WINDOW_BYTES])
    decreases |bytes|
  {
    if |bytes| < WINDOW_BYTES {
      floors := [floor];
    } else {
      var (floor', w) := vad(floor, bytes[..WINDOW_BYTES]);
      var rest := bytes[WINDOW_BYTES..];
      var behind := DetectorInOrder(vad, floor', rest);
      floors := [floor] + behind;
      var ws := Classify(vad, floor, bytes).1;
      forall k | 0 <= k < |ws|
        ensures (floors[k + 1], ws[k]) == vad(floors[k], bytes[WINDOW_BYTES * k..WINDOW_BYTES * k + WINDOW_BYTES])
      {
        if k > 0 {
          assert rest[WINDOW_BYTES * (k - 1)..WINDOW_BYTES * (k - 1) + WINDOW_BYTES] ==
                 bytes[WINDOW_BYTES * k..WINDOW_BYTES * k + WINDOW_BYTES];
        }
      }
    }
  }

  /** Bytes that do not fill a window yet wait; the windows do not depend on how the stream was framed. */
  lemma {:induction false} ClassifyInSteps(vad: Vad, floor: real, whole: Bytes, tail: Bytes)
    requires |whole| % WINDOW_BYTES == 0
    ensures var (middle, ws) := Classify(vad, floor, whole);
      Classify(vad, floor, whole + tail) == (Classify(vad, middle, tail).0, ws + Classify(vad, middle, tail).1)
    decreases |whole|
  {
    if whole == [] {
      assert whole + tail == tail;
      assert [] + Classify(vad, floor, tail).1 == Classify(vad, floor, tail).1;
    } else {
      var (floor', w) := vad(floor, whole[..WINDOW_BYTES]);
      var rest := whole[WINDOW_BYTES..];
      ClassifyInSteps(vad, floor', rest, tail);
      assert (whole + tail)[..WINDOW_BYTES] == whole[..WINDOW_BYTES];
      assert (whole + tail)[WINDOW_BYTES..] == rest + tail;
      var (middle, ws) := Classify(vad, floor', rest);
      assert ([w] + ws) + Classify(vad, middle, tail).1 == [w] + (ws + Classify(vad, middle, tail).1);
    }
  }

  lemma ClassifyOneMore(vad: Vad, floor: real, whole: Bytes, buf: Bytes)
    requires |whole| % WINDOW_BYTES == 0 && |buf| == WINDOW_BYTES
    ensures var (middle, ws) := Classify(vad, floor, whole);
      Classify(vad, floor, whole + buf) == (vad(middle, buf).0, ws + [vad(middle, buf).1])
  {
    var (middle, ws) := Classify(vad, floor, whole);
    ClassifyInSteps(vad, floor, whole, buf);
    assert buf[..WINDOW_BYTES] == buf && buf[WINDOW_BYTES..] == [];
    assert Classify(vad, middle, buf).1 == [vad(middle, buf).1];
  }

  // ---------------------------------------------------------------- the cut rules

  function TrailingSilence(ws: seq<Window>): (n: nat)
    ensures n <= |ws|
    ensures forall i | |ws| - n <= i < |ws| :: !ws[i].speech
    ensures n < |ws| ==> ws[|ws| - n - 1].speech
  {
    if ws == [] || ws[|ws| - 1].speech then 0 else 1 + TrailingSilence(ws[..|ws| - 1])
  }

  function SpeechCount(ws: seq<Window>): nat {
    if ws == [] then 0 else SpeechCount(ws[..|ws| - 1]) + if ws[|ws| - 1].speech then 1 else 0
  }

  /** The windows among the first n that hold speech. */
  function SpeechAt(ws: seq<Window>, n: nat): set<nat>
    requires n <= |ws|
  {
    set i: nat | i < n && ws[i].speech
  }

  lemma {:induction false} SpeechCountIsCount(ws: seq<Window>, n: nat)
    requires n <= |ws|
    ensures SpeechCount(ws[..n]) == |SpeechAt(ws, n)|
  {
    if n > 0 {
      SpeechCountIsCount(ws, n - 1);
      assert ws[..n][..n - 1] == ws[..n - 1];
      assert SpeechAt(ws, n) == SpeechAt(ws, n - 1) + if ws[n - 1].speech then {n - 1} else {};
    }
  }

  /** At least 5 % of the first n windows are speech, and there is one. */
  predicate SpeechOK(ws: seq<Window>, n: nat)
    requires n <= |ws|
  {
    n > 0 && 20 * |SpeechAt(ws, n)| >= n
  }

  /** Pure speech always passes and silence never does. */
  lemma SpeechDecides(ws: seq<Window>, n: nat)
    requires 0 < n <= |ws|
    ensures (forall i | 0 <= i < n :: ws[i].speech) ==> SpeechOK(ws, n)
    ensures (forall i | 0 <= i < n :: !ws[i].speech) ==> !SpeechOK(ws, n)
  {
    if forall i | 0 <= i < n :: ws[i].speech {
      AllAreSpeech(ws, n);
    }
    if forall i | 0 <= i < n :: !ws[i].speech {
      assert SpeechAt(ws, n) == {};
    }
  }

  lemma {:induction false} AllAreSpeech(ws: seq<Window>, n: nat)
    requires n <= |ws| && forall i | 0 <= i < n :: ws[i].speech
    ensures |SpeechAt(ws, n)| == n
  {
    if n > 0 {
      AllAreSpeech(ws, n - 1);
      assert SpeechAt(ws, n) == SpeechAt(ws, n - 1) + {n - 1};
    }
  }

  /** First window of the trailing second. */
  function LastSecond(ws: seq<Window>): nat {
    if |ws| < LAST_SECOND_MS / WINDOW_MS then 0 else |ws| - LAST_SECOND_MS / WINDOW_MS
  }

  /** best is the latest of the lowest-energy windows of the trailing second. */
  ghost predicate IsLatestQuietest(ws: seq<Window>, best: nat) {
    && LastSecond(ws) <= best < |ws|
    && (forall i | LastSecond(ws) <= i < |ws| :: ws[best].rms <= ws[i].rms)
    && (forall i | best < i < |ws| :: ws[best].rms < ws[i].rms)
  }

  /** A pause cut before window n is due. */
  ghost predicate PauseCutDue(cfg: Config, ws: seq<Window>, n: nat) {
    && 0 < n < |ws| && ws[n - 1].speech && (forall i | n <= i < |ws| :: !ws[i].speech)
    && WINDOW_MS * |ws| >= cfg.min
    && (WINDOW_MS * (|ws| - n) >= LONG_PAUSE_CUT_MS
        || (WINDOW_MS * |ws| >= cfg.target && WINDOW_MS * (|ws| - n) >= PAUSE_CUT_MS))
  }

  /**
   * The rules from outside: at Max the cut follows the latest quietest window of the last second;
   * below Max there is a cut exactly where a pause cut is due; otherwise there is none.
   */
  ghost predicate IsCut(cfg: Config, ws: seq<Window>, cut: Option<nat>) {
    if WINDOW_MS * |ws| >= cfg.max then cut.Some? && cut.value > 0 && IsLatestQuietest(ws, cut.value - 1)
    else if cut.Some? then PauseCutDue(cfg, ws, cut.value)
    else forall n: nat :: !PauseCutDue(cfg, ws, n)
  }

  /** With Max above 980 ms, what a cut leaves buffered is shorter than Max. */
  lemma LeftShorterThanMax(cfg: Config, ws: seq<Window>, cut: Option<nat>)
    requires IsCut(cfg, ws, cut) && cfg.max > LAST_SECOND_MS - WINDOW_MS
    ensures WINDOW_MS * (|ws| - if cut.Some? then cut.value else 0) < cfg.max
  {
  }

  lemma LeftIsShort(cfg: Config, ws: seq<Window>, cut: Option<nat>)
    requires IsCut(cfg, ws, cut)
    ensures cfg.max > LAST_SECOND_MS - WINDOW_MS ==> WINDOW_MS * (|ws| - if cut.Some? then cut.value else 0) < cfg.max
    ensures cut.Some? ==> cut.value <= |ws|
  {
    if cfg.max > LAST_SECOND_MS - WINDOW_MS {
      LeftShorterThanMax(cfg, ws, cut);
    }
  }

  /** With any smaller Max it need not be: the quietest window may be the first of the last second. */
  lemma LeftMayReachSmallMax(cfg: Config) returns (ws: seq<Window>, cut: Option<nat>)
    requires 0 < cfg.max <= LAST_SECOND_MS - WINDOW_MS
    ensures IsCut(cfg, ws, cut) && cut.Some? && WINDOW_MS * (|ws| - cut.value) >= cfg.max
  {
    ws := seq(LAST_SECOND_MS / WINDOW_MS, i => Window(if i == 0 then 0.0 else 1.0, true));
    cut := Some(1);
    assert IsLatestQuietest(ws, 0);
  }

  lemma LatestQuietestIsUnique(ws: seq<Window>, i: nat, j: nat)
    requires IsLatestQuietest(ws, i) && IsLatestQuietest(ws, j)
    ensures i == j
  {
    assert ws[i].rms == ws[j].rms;
  }

  /** One frame can push the buffer past Max by no more than itself and an unfinished window. */
  lemma CutIsShort(max: int, before: nat, pending: nat, frame: nat, after: nat, cut: nat)
    requires WINDOW_BYTES * after <= WINDOW_BYTES * before + pending + frame && pending < WINDOW_BYTES && cut <= after
    ensures WINDOW_MS * before < max ==> BYTES_PER_MS * (WINDOW_MS * cut) < BYTES_PER_MS * max + frame + WINDOW_BYTES
  {
  }

  /** The rules leave no choice. */
  lemma CutIsUnique(cfg: Config, ws: seq<Window>, a: Option<nat>, b: Option<nat>)
    requires IsCut(cfg, ws, a) && IsCut(cfg, ws, b)
    ensures a == b
  {
    OnlyPauseCut(cfg, ws);
    if WINDOW_MS * |ws| >= cfg.max {
      LatestQuietestIsUnique(ws, a.value - 1, b.value - 1);
    }
  }

  // ------------------------------------------------------------------ the object

  class Chunker {
    const cfg: Config
    const vad: Vad
    const firstFloor: real
    var floor: real
    var pending: Bytes          // received bytes not yet covering a full window
    var pcm: Bytes              // window-aligned bytes of the current chunk
    var windows: seq<Window>
    var startMs: nat
    var next: nat

    ghost var stream: Bytes     // everything ever pushed
    ghost var consumed: Bytes   // everything cut off the front, emitted or discarded
    ghost var spent: seq<Window>
    ghost var flushes: nat      // flushes that fired

    constructor (cfg: Config, vad: Vad, floor: real)
      requires cfg.max > 0
      ensures Valid() && this.cfg == cfg && this.vad == vad
      ensures stream == [] && next == 0 && startMs == 0 && flushes == 0
      ensures windows == [] && spent == [] && this.firstFloor == floor
    {
      this.cfg, this.vad, this.firstFloor, this.floor := cfg, vad, floor, floor;
      pending, pcm, windows, startMs, next := [], [], [], 0, 0;
      stream, consumed, spent, flushes := [], [], [], 0;
    }

    /**
     * Nothing is lost and time is exact: consumed, current and pending bytes make up the stream, and
     * the start position lags the consumed bytes by less than a millisecond per flush.
     */
    ghost predicate Intact()
      reads this
    {
      && cfg.max > 0
      && stream == consumed + pcm + pending
      && |pcm| == WINDOW_BYTES * |windows| && |pending| < WINDOW_BYTES
      && 0 <= |consumed| - BYTES_PER_MS * startMs <= 31 * flushes
      && (flushes == 0 ==>
            && |consumed| % WINDOW_BYTES == 0
            && (floor, spent + windows) == Classify(vad, firstFloor, consumed + pcm))
    }

    /** Between calls, with Max above 980 ms, less than Max is buffered. */
    ghost predicate Valid()
      reads this
    {
      Intact() && (cfg.max > LAST_SECOND_MS - WINDOW_MS ==> WINDOW_MS * |windows| < cfg.max)
    }

    /** Without a mid-run flush the windows are those of the stream, however it was framed. */
    lemma WindowsOfStream()
      requires Valid() && flushes == 0
      ensures (floor, spent + windows) == Classify(vad, firstFloor, stream)
    {
      ClassifyInSteps(vad, firstFloor, consumed + pcm, pending);
      assert spent + windows + [] == spent + windows;
    }

    /** The chunk covers exactly the bytes consumed since, and carries the position before and after. */
    twostate predicate Emits(new chunk: Chunk)
      reads this
    {
      && chunk.index == old(next) && chunk.startMs == old(startMs) && chunk.endMs == startMs
      && |old(consumed)| <= |consumed| <= |stream| && chunk.pcm == stream[|old(consumed)|..|consumed|]
    }

    /**
     * Appends a frame and applies the cut rules once. `ws` are the buffered windows the rules see,
     * `cut` is where they cut.
     */
    method Push(frame: Bytes) returns (chunk: Option<Chunk>, ghost ws: seq<Window>, ghost cut: Option<nat>)
      requires Valid()
      modifies this
      ensures Valid() && stream == old(stream) + frame && flushes == old(flushes)
      ensures WINDOW_BYTES * |ws| <= old(WINDOW_BYTES * |windows| + |pending|) + |frame|
      ensures old(windows) <= ws && IsCut(cfg, ws, cut) && spent + windows == old(spent) + ws
      ensures cut.None? ==> chunk == None && windows == ws && startMs == old(startMs) && consumed == old(consumed)
      ensures cut.Some? ==>
        && windows == ws[cut.value..] && startMs == old(startMs) + WINDOW_MS * cut.value
        && |consumed| == |old(consumed)| + WINDOW_BYTES * cut.value
      // A cut is emitted when at least 5 % of its windows are speech: always if all are, never if none is.
      ensures cut.Some? ==> (chunk.Some? <==> cut.value > 0 && 20 * |set i: nat | i < cut.value && ws[i].speech| >= cut.value)
      ensures cut.Some? && cut.value > 0 && (forall i | 0 <= i < cut.value :: ws[i].speech) ==> chunk.Some?
      ensures cut.Some? && (forall i | 0 <= i < cut.value :: !ws[i].speech) ==> chunk.None?
      ensures chunk.Some? ==> Emits(chunk.value)
      ensures next == old(next) + if chunk.Some? then 1 else 0
      // Without a mid-run flush the chunk's milliseconds are exactly its bytes of the stream.
      ensures chunk.Some? && flushes == 0 ==>
        var c := chunk.value;
        BYTES_PER_MS * c.endMs <= |stream| && c.pcm == stream[BYTES_PER_MS * c.startMs..BYTES_PER_MS * c.endMs]
      // What stays buffered is shorter than Max when Max is above 980 ms, and then chunks stay bounded.
      ensures chunk.Some? && (cfg.max > LAST_SECOND_MS - WINDOW_MS || old(WINDOW_MS * |windows|) < cfg.max) ==>
        BYTES_PER_MS * (chunk.value.endMs - chunk.value.startMs) < BYTES_PER_MS * cfg.max + |frame| + WINDOW_BYTES
    {
      ghost var before := |consumed|;
      TakeWindows(frame);
      ws := windows;
      assert flushes == 0 ==> BYTES_PER_MS * startMs == before;
      chunk, cut := Evaluate();
      assert flushes == 0 ==> BYTES_PER_MS * startMs == |consumed|;
      LeftIsShort(cfg, ws, cut);
      if cut.Some? && cut.value > 0 {
        SpeechDecides(ws, cut.value);
      }
      if cut.Some? {
        CutIsShort(cfg.max, |old(windows)|, |old(pending)|, |frame|, |ws|, cut.value);
      }
    }

    method TakeWindows(frame: Bytes)
      requires Intact()
      modifies this`pending, this`pcm, this`windows, this`floor, this`stream
      ensures Intact() && stream == old(stream) + frame && old(windows) <= windows
      ensures WINDOW_BYTES * |windows| + |pending| == old(WINDOW_BYTES * |windows| + |pending|) + |frame|
    {
      pending := pending + frame;
      stream := stream + frame;
      while |pending| >= WINDOW_BYTES
        invariant stream == old(stream) + frame == consumed + pcm + pending && |pcm| == WINDOW_BYTES * |windows|
        invariant old(windows) <= windows
        invariant WINDOW_BYTES * |windows| + |pending| == old(WINDOW_BYTES * |windows| + |pending|) + |frame|
        invariant flushes == 0 ==> (floor, spent + windows) == Classify(vad, firstFloor, consumed + pcm)
        decreases |pending|
      {
        TakeWindow();
      }
    }

    method TakeWindow()
      requires |pcm| == WINDOW_BYTES * |windows| && |pending| >= WINDOW_BYTES
      requires flushes == 0 ==> |consumed| % WINDOW_BYTES == 0
      requires flushes == 0 ==> (floor, spent + windows) == Classify(vad, firstFloor, consumed + pcm)
      modifies this`pending, this`pcm, this`windows, this`floor
      ensures pcm == old(pcm) + old(pending)[..WINDOW_BYTES] && pending == old(pending)[WINDOW_BYTES..]
      ensures |windows| == |old(windows)| + 1 && old(windows) <= windows
      ensures flushes == 0 ==> (floor, spent + windows) == Classify(vad, firstFloor, consumed + pcm)
    {
      var buf := pending[..WINDOW_BYTES];
      pending := pending[WINDOW_BYTES..];
      var (floor', w) := vad(floor, buf);
      if flushes == 0 {
        ClassifyOneMore(vad, firstFloor, consumed + pcm, buf);
        assert consumed + pcm + buf == consumed + (pcm + buf);
        assert (spent + windows) + [w] == spent + (windows + [w]);
      }
      floor := floor';
      windows := windows + [w];
      pcm := pcm + buf;
    }

    /** The cut rules, once. */
    method Evaluate() returns (chunk: Option<Chunk>, ghost cut: Option<nat>)
      requires Intact()
      modifies this`pcm, this`windows, this`startMs, this`next, this`consumed, this`spent
      ensures Intact() && IsCut(cfg, old(windows), cut)
      ensures cut.None? ==> chunk == None && unchanged(this)
      ensures cut.Some? ==> CutsAt(cut.value, chunk)
    {
      var bufferedMs := |windows| * WINDOW_MS;
      if bufferedMs >= cfg.max {
        var relMs := MaxCutMs();
        cut := Some(relMs / WINDOW_MS);
        chunk := Cut(relMs);
        return;
      }
      var runMs := TrailingSilenceMs();
      ghost var n := |windows| - TrailingSilence(windows);
      cut := None;
      chunk := None;
      TrailingSilenceDecides(cfg, windows);
      if runMs == 0 {
        return;
      }
      var runStartMs := bufferedMs - runMs;
      if runStartMs == 0 || bufferedMs < cfg.min {
        return;
      }
      if runMs >= LONG_PAUSE_CUT_MS || (bufferedMs >= cfg.target && runMs >= PAUSE_CUT_MS) {
        cut := Some(n);
        chunk := Cut(runStartMs);
      }
    }

    method TrailingSilenceMs() returns (ms: nat)
      ensures ms == WINDOW_MS * TrailingSilence(windows)
    {
      var run := 0;
      var i := |windows| - 1;
      while i >= 0 && !windows[i].speech
        invariant -1 <= i < |windows|
        invariant run + TrailingSilence(windows[..i + 1]) == TrailingSilence(windows)
      {
        assert windows[..i + 1][..i] == windows[..i];
        run := run + 1;
        i := i - 1;
      }
      assert windows[..|windows|] == windows;
      ms := run * WINDOW_MS;
    }

    method MaxCutMs() returns (ms: nat)
      requires windows != []
      ensures ms > 0 && ms % WINDOW_MS == 0 && IsLatestQuietest(windows, ms / WINDOW_MS - 1)
    {
      var n := |windows|;
      var first := n - LAST_SECOND_MS / WINDOW_MS;
      if first < 0 {
        first := 0;
      }
      var best := first;
      for i := first to n
        invariant first <= best < n && (if i > first then best < i else best == first)
        invariant forall k | first <= k < i :: windows[best].rms <= windows[k].rms
        invariant forall k | best < k < i :: windows[best].rms < windows[k].rms
      {
        if windows[i].rms <= windows[best].rms {
          best := i;
        }
      }
      ms := (best + 1) * WINDOW_MS;
    }

    /** The first n windows leave the buffer; they are returned when they carry enough speech. */
    twostate predicate CutsAt(n: nat, new chunk: Option<Chunk>)
      reads this
    {
      && n <= |old(windows)| && windows == old(windows)[n..]
      && startMs == old(startMs) + WINDOW_MS * n && |consumed| == |old(consumed)| + WINDOW_BYTES * n
      && spent + windows == old(spent) + old(windows)
      && chunk.Some? == SpeechOK(old(windows), n)
      && (chunk.Some? ==> Emits(chunk.value))
      && next == old(next) + if chunk.Some? then 1 else 0
    }

    method Cut(relMs: nat) returns (chunk: Option<Chunk>)
      requires Intact() && relMs % WINDOW_MS == 0 && relMs <= WINDOW_MS * |windows|
      modifies this`pcm, this`windows, this`startMs, this`next, this`consumed, this`spent
      ensures Intact() && CutsAt(relMs / WINDOW_MS, chunk)
    {
      var nWin := relMs / WINDOW_MS;
      var speechOK := EnoughSpeech(nWin);
      var head := pcm[..nWin * WINDOW_BYTES];
      assert relMs == WINDOW_MS * nWin;
      assert (|consumed| + WINDOW_BYTES * nWin) % WINDOW_BYTES == |consumed| % WINDOW_BYTES;
      assert consumed + head + pcm[nWin * WINDOW_BYTES..] == consumed + pcm;
      assert spent + windows[..nWin] + windows[nWin..] == spent + windows;
      consumed := consumed + head;
      spent := spent + windows[..nWin];
      pcm := pcm[nWin * WINDOW_BYTES..];
      windows := windows[nWin..];
      chunk := Finish(head, relMs, speechOK);
    }

    method EnoughSpeech(n: nat) returns (ok: bool)
      requires n <= |windows|
      ensures ok <==> n > 0 && 20 * |set i: nat | i < n && windows[i].speech| >= n
    {
      if n == 0 {
        return false;
      }
      var speech := 0;
      for i := 0 to n
        invariant speech == SpeechCount(windows[..i])
      {
        assert windows[..i + 1][..i] == windows[..i];
        if windows[i].speech {
          speech := speech + 1;
        }
      }
      SpeechCountIsCount(windows, n);
      return 20 * speech >= n;
    }

    method Finish(head: Bytes, durMs: nat, speechOK: bool) returns (chunk: Option<Chunk>)
      modifies this`startMs, this`next
      ensures startMs == old(startMs) + durMs
      ensures chunk == if speechOK then Some(Chunk(old(next), old(startMs), startMs, head)) else None
      ensures next == old(next) + if speechOK then 1 else 0
    {
      var ch := Chunk(next, startMs, startMs + durMs, head);
      startMs := startMs + durMs;
      if !speechOK {
        return None;
      }
      next := next + 1;
      return Some(ch);
    }

    /** Emits the buffered tail when it meets the minimum length. */
    method Flush() returns (chunk: Option<Chunk>)
      requires Valid()
      modifies this
      ensures Valid() && stream == old(stream)
      ensures var fires := old((|pcm| + |pending|) / BYTES_PER_MS) >= cfg.min;
        if fires then
          && flushes == old(flushes) + 1 && consumed == stream && windows == [] && pending == []
          && startMs == old(startMs) + old((|pcm| + |pending|) / BYTES_PER_MS)
          && chunk.Some? == SpeechOK(old(windows), |old(windows)|) && (chunk.Some? ==> Emits(chunk.value))
        else chunk == None && unchanged(this)
      ensures next == old(next) + if chunk.Some? then 1 else 0
    {
      var durMs := (|pcm| + |pending|) / BYTES_PER_MS;
      if durMs < cfg.min {
        return None;
      }
      var speechOK := EnoughSpeech(|windows|);
      assert windows[..|windows|] == windows;
      var tail := pcm + pending;
      consumed := consumed + tail;
      flushes := flushes + 1;
      pcm, pending, windows := [], [], [];
      chunk := Finish(tail, durMs, speechOK);
    }
  }

  /** Only the start of the trailing silence can be a pause cut. */
  lemma OnlyPauseCut(cfg: Config, ws: seq<Window>)
    ensures forall n: nat | PauseCutDue(cfg, ws, n) :: n == |ws| - TrailingSilence(ws)
  {
    forall n: nat | PauseCutDue(cfg, ws, n)
      ensures n == |ws| - TrailingSilence(ws)
    {
      var t := |ws| - TrailingSilence(ws);
      assert ws[n - 1].speech && n <= t;
      assert ws[t - 1].speech && t <= n;
    }
  }

  /** Below Max the trailing silence alone decides, as the branches of evaluate ask about it. */
  lemma TrailingSilenceDecides(cfg: Config, ws: seq<Window>)
    requires WINDOW_MS * |ws| < cfg.max
    ensures var t := TrailingSilence(ws);
      if 0 < t < |ws| && WINDOW_MS * |ws| >= cfg.min
         && (WINDOW_MS * t >= LONG_PAUSE_CUT_MS || (WINDOW_MS * |ws| >= cfg.target && WINDOW_MS * t >= PAUSE_CUT_MS))
      then IsCut(cfg, ws, Some(|ws| - t)) else IsCut(cfg, ws, None)
  {
    OnlyPauseCut(cfg, ws);
  }

  // ------------------------------------------------------- Max of at most 980 ms

  /** A detector that hears speech everywhere and finds windows that start with a zero byte quieter. */
  function ZeroIsQuiet(floor: real, bytes: Bytes): (real, Window) {
    (floor, Window(if bytes != [] && bytes[0] == 0 then 0.0 else 1.0, true))
  }

  function Loud(n: nat): Bytes { seq(WINDOW_BYTES * n, _ => 1) }

  function LoudWindows(n: nat): seq<Window> { seq(n, _ => Window(1.0, true)) }

  const QuietWindow: Bytes := seq(WINDOW_BYTES, _ => 0)

  lemma {:induction false} LoudIsLoud(floor: real, n: nat)
    ensures Classify(ZeroIsQuiet, floor, Loud(n)) == (floor, LoudWindows(n))
  {
    if n == 0 {
      assert LoudWindows(n) == [];
    } else {
      assert Loud(n)[WINDOW_BYTES..] == Loud(n - 1);
      LoudIsLoud(floor, n - 1);
      assert LoudWindows(n) == [Window(1.0, true)] + LoudWindows(n - 1);
      assert ZeroIsQuiet(floor, Loud(n)[..WINDOW_BYTES]) == (floor, Window(1.0, true));
    }
  }

  lemma QuietThenLoud(floor: real, n: nat)
    ensures Classify(ZeroIsQuiet, floor, QuietWindow + Loud(n)).1 == [Window(0.0, true)] + LoudWindows(n)
  {
    var frame := QuietWindow + Loud(n);
    assert frame[..WINDOW_BYTES] == QuietWindow && frame[WINDOW_BYTES..] == Loud(n);
    LoudIsLoud(floor, n);
  }

  lemma CutAfterTheQuiet(cfg: Config, n: nat, cut: Option<nat>)
    requires WINDOW_MS * (n + 1) >= cfg.max && n + 1 == LAST_SECOND_MS / WINDOW_MS
    requires IsCut(cfg, [Window(0.0, true)] + LoudWindows(n), cut)
    ensures cut == Some(1)
  {
    var ws := [Window(0.0, true)] + LoudWindows(n);
    assert IsLatestQuietest(ws, 0);
    LatestQuietestIsUnique(ws, 0, cut.value - 1);
  }

  /**
   * For every Max of at most 980 ms the remainder can be as long as Max: a second of audio whose first window is the
   * quietest is cut behind that window, and 980 ms stay buffered.
   */
  method LeavesMax(cfg: Config) returns (c: Chunker)
    requires 0 < cfg.max <= LAST_SECOND_MS - WINDOW_MS
    ensures fresh(c) && c.Valid() && c.cfg == cfg && c.vad == ZeroIsQuiet && c.stream == QuietWindow + Loud(49)
    ensures WINDOW_MS * |c.windows| == LAST_SECOND_MS - WINDOW_MS >= cfg.max
  {
    c := new Chunker(cfg, ZeroIsQuiet, 0.0);
    var frame := QuietWindow + Loud(49);
    ghost var ws, cut;
    var chunk;
    chunk, ws, cut := c.Push(frame);
    c.WindowsOfStream();
    QuietThenLoud(0.0, 49);
    assert [] + frame == frame && [] + ws == ws;
    CutAfterTheQuiet(cfg, 49, cut);
  }
}
