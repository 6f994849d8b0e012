/**
 * The operator page's resampler and framer: apps/web/src/lib/pcm.ts. Samples are reals; positions
 * in the source are exact, counted in sixteen-thousandths of a source sample, so that one output
 * sample advances the position by the source rate.
 */
module Pcm {

  const UNIT: nat := 16000            // targetSampleRate
  const FRAME_SAMPLES: nat := 3200

  type Samples = seq<real>

  /** 3200 signed 16-bit values. */
  type Frame = seq<int>

  function Ceil(position: int): int { (position + UNIT - 1) / UNIT }

  /** pending[i] ?? missing */
  function At(samples: Samples, i: int, missing: real): real {
    if 0 <= i < |samples| then samples[i] else missing
  }

  function Clamp(x: real): real { if x < -1.0 then -1.0 else if x > 1.0 then 1.0 else x }

  function ToInt16(sample: real): int {
    ((if sample < 0.0 then sample * 32768.0 else sample * 32767.0) + 0.5).Floor
  }

  /** The point that lies the given fraction of the way from a to b. */
  function Line(a: real, b: real, fraction: real): real { a + (b - a) * fraction }

  function Between(a: real, b: real, fraction: real): real { Clamp(Line(a, b, fraction)) }

  function Fraction(position: int): real { (position % UNIT) as real / UNIT as real }

  /** Linear interpolation at a position. */
  function Interpolate(samples: Samples, position: int): int {
    var a := At(samples, position / UNIT, 0.0);
    var b := At(samples, position / UNIT + 1, a);
    ToInt16(Between(a, b, Fraction(position)))
  }

  function FrameAt(rate: nat, samples: Samples, cursor: int): Frame {
    seq(FRAME_SAMPLES, i requires 0 <= i < FRAME_SAMPLES => Interpolate(samples, cursor + i * rate))
  }

  /** The last output sample of a frame at the cursor finds its source sample in the buffer. */
  predicate Ready(rate: nat, length: nat, cursor: int) {
    Ceil(cursor + (FRAME_SAMPLES - 1) * rate) <= length - 1
  }

  datatype Framer = Framer(pending: Samples, cursor: int)

  const NewFramer := Framer([], 0)

  /** The frames a buffer holds from the cursor on, and the cursor after them. */
  function Emit(rate: nat, pending: Samples, cursor: nat): (r: (seq<Frame>, nat))
    requires rate > 0
    decreases UNIT * |pending| - cursor
  {
    if !Ready(rate, |pending|, cursor) then ([], cursor) else
    var (frames, last) := Emit(rate, pending, cursor + FRAME_SAMPLES * rate);
    ([FrameAt(rate, pending, cursor)] + frames, last)
  }

  /** One push: emit what is ready, then drop the samples before the cursor, as far as there are any. */
  function Pushed(rate: nat, framer: Framer, input: Samples): (r: (Framer, seq<Frame>))
    requires rate > 0 && framer.cursor >= 0
    ensures r.0.cursor >= 0
  {
    if input == [] then (framer, []) else
    var merged := framer.pending + input;
    var (frames, cursor) := Emit(rate, merged, framer.cursor);
    var drop := cursor / UNIT;
    (Framer(if drop <= |merged| then merged[drop..] else [], cursor - drop * UNIT), frames)
  }

  function PushedAll(rate: nat, framer: Framer, inputs: seq<Samples>): (r: (Framer, seq<Frame>))
    requires rate > 0 && framer.cursor >= 0
    ensures r.0.cursor >= 0
  {
    if inputs == [] then (framer, []) else
    var (before, frames) := PushedAll(rate, framer, inputs[..|inputs| - 1]);
    var (after, more) := Pushed(rate, before, inputs[|inputs| - 1]);
    (after, frames + more)
  }

  function Concat(inputs: seq<Samples>): Samples {
    if inputs == [] then [] else Concat(inputs[..|inputs| - 1]) + inputs[|inputs| - 1]
  }

  class PcmFramer {
    const rate: nat
    var pending: Samples
    var cursor: nat

    constructor (rate: nat)
      requires rate > 0
      ensures this.rate == rate && State() == NewFramer
    {
      this.rate := rate;
      pending, cursor := [], 0;
    }

    ghost function State(): Framer
      reads this
    {
      Framer(pending, cursor)
    }

    method Push(input: Samples) returns (frames: seq<Frame>)
      requires rate > 0
      modifies this
      ensures (State(), frames) == Pushed(rate, old(State()), input)
    {
      if |input| == 0 {
        return [];
      }
      pending := pending + input;
      frames := [];
      assert forall fs: seq<Frame> :: [] + fs == fs;
      ghost var all := Emit(rate, pending, cursor);
      while Ceil(cursor + (FRAME_SAMPLES - 1) * rate) <= |pending| - 1
        invariant pending == old(pending) + input
        invariant all == (frames + Emit(rate, pending, cursor).0, Emit(rate, pending, cursor).1)
        decreases UNIT * |pending| - cursor
      {
        var rest := Emit(rate, pending, cursor + FRAME_SAMPLES * rate).0;
        assert frames + ([FrameAt(rate, pending, cursor)] + rest) == frames + [FrameAt(rate, pending, cursor)] + rest;
        var frame := EmitFrame();
        frames := frames + [frame];
      }
      assert frames + [] == frames;
      var drop := cursor / UNIT;
      if drop > 0 {
        pending := if drop <= |pending| then pending[drop..] else [];
        cursor := cursor - drop * UNIT;
      }
    }

    method EmitFrame() returns (frame: Frame)
      modifies this`cursor
      ensures frame == FrameAt(rate, pending, old(cursor)) && cursor == old(cursor) + FRAME_SAMPLES * rate
    {
      frame := [];
      for i := 0 to FRAME_SAMPLES
        invariant |frame| == i && forall k | 0 <= k < i :: frame[k] == Interpolate(pending, cursor + k * rate)
      {
        var position := cursor + i * rate;
        var index := position / UNIT;
        var a := if index < |pending| then pending[index] else 0.0;
        var b := if index + 1 < |pending| then pending[index + 1] else a;
        var sample := Between(a, b, Fraction(position));
        frame := frame + [ToInt16(sample)];
      }
      cursor := cursor + FRAME_SAMPLES * rate;
    }
  }

  // ------------------------------------------------------------- the reference

  /** Where frame k of a stream starts. */
  function Start(rate: nat, k: nat): nat { k * (FRAME_SAMPLES * rate) }

  /** The frames of a whole stream from frame k on, read from the stream itself. */
  function FramesFrom(rate: nat, stream: Samples, k: nat): (r: seq<Frame>)
    requires rate > 0
    decreases UNIT * |stream| - Start(rate, k)
  {
    if !Ready(rate, |stream|, Start(rate, k)) then [] else
    NextStart(rate, k);
    [FrameAt(rate, stream, Start(rate, k))] + FramesFrom(rate, stream, k + 1)
  }

  lemma NextStart(rate: nat, k: nat)
    ensures Start(rate, k + 1) == Start(rate, k) + FRAME_SAMPLES * rate
  {
  }

  /** The framer's buffer is the stream from sample `dropped` on, and its cursor stands at frame k. */
  ghost predicate Aligned(rate: nat, framer: Framer, stream: Samples, dropped: nat, k: nat) {
    && dropped <= |stream| && framer.pending == stream[dropped..]
    && 0 <= framer.cursor < UNIT && framer.cursor + UNIT * dropped == Start(rate, k)
  }

  lemma InterpolateInBuffer(stream: Samples, dropped: nat, position: int)
    requires dropped <= |stream| && position >= 0
    ensures Interpolate(stream[dropped..], position) == Interpolate(stream, position + UNIT * dropped)
  {
    assert (position + UNIT * dropped) / UNIT == position / UNIT + dropped;
    assert (position + UNIT * dropped) % UNIT == position % UNIT;
  }

  lemma FrameInBuffer(rate: nat, stream: Samples, dropped: nat, cursor: nat)
    requires dropped <= |stream|
    ensures FrameAt(rate, stream[dropped..], cursor) == FrameAt(rate, stream, cursor + UNIT * dropped)
  {
    var a, b := FrameAt(rate, stream[dropped..], cursor), FrameAt(rate, stream, cursor + UNIT * dropped);
    forall i | 0 <= i < FRAME_SAMPLES
      ensures a[i] == b[i]
    {
      SampleInBuffer(stream, dropped, cursor, i * rate);
    }
  }

  lemma SampleInBuffer(stream: Samples, dropped: nat, cursor: nat, offset: nat)
    requires dropped <= |stream|
    ensures Interpolate(stream[dropped..], cursor + offset) == Interpolate(stream, cursor + UNIT * dropped + offset)
  {
    InterpolateInBuffer(stream, dropped, cursor + offset);
  }

  /** A sample whose right neighbour exists, or is not needed, does not change when the stream grows. */
  lemma InterpolateGrows(stream: Samples, more: Samples, position: int)
    requires position >= 0 && Ceil(position) <= |stream| - 1
    ensures Interpolate(stream + more, position) == Interpolate(stream, position)
  {
    if position % UNIT == 0 {
      var a := At(stream, position / UNIT, 0.0);
      assert Fraction(position) == 0.0;
      NeighbourNotNeeded(a, At(stream, position / UNIT + 1, a));
      NeighbourNotNeeded(a, At(stream + more, position / UNIT + 1, a));
    }
  }

  lemma NeighbourNotNeeded(a: real, b: real)
    ensures Between(a, b, 0.0) == Clamp(a)
  {
    assert (b - a) * 0.0 == 0.0;
  }

  lemma FrameGrows(rate: nat, stream: Samples, more: Samples, cursor: nat)
    requires Ready(rate, |stream|, cursor)
    ensures FrameAt(rate, stream + more, cursor) == FrameAt(rate, stream, cursor)
  {
    forall i | 0 <= i < FRAME_SAMPLES
      ensures FrameAt(rate, stream + more, cursor)[i] == FrameAt(rate, stream, cursor)[i]
    {
      OffsetInFrame(rate, i);
      InterpolateGrows(stream, more, cursor + i * rate);
    }
  }

  /** Emitting from an aligned buffer yields the stream's own frames and stays aligned. */
  lemma {:induction false} EmitIsReference(rate: nat, stream: Samples, dropped: nat, k: nat, cursor: nat)
    requires rate > 0 && dropped <= |stream| && cursor + UNIT * dropped == Start(rate, k)
    ensures var (frames, last) := Emit(rate, stream[dropped..], cursor);
      && frames == FramesFrom(rate, stream, k)
      && last + UNIT * dropped == Start(rate, k + |frames|)
      && !Ready(rate, |stream|, last + UNIT * dropped)
      && (frames == [] ==> last == cursor)
      && (frames != [] ==> last >= FRAME_SAMPLES * rate && Ready(rate, |stream| - dropped, last - FRAME_SAMPLES * rate))
    decreases UNIT * |stream| - Start(rate, k)
  {
    var pending := stream[dropped..];
    ReadyInBuffer(rate, |stream|, dropped, cursor);
    if Ready(rate, |pending|, cursor) {
      NextStart(rate, k);
      var next := cursor + FRAME_SAMPLES * rate;
      EmitIsReference(rate, stream, dropped, k + 1, next);
      FrameInBuffer(rate, stream, dropped, cursor);
    }
  }

  lemma ReadyInBuffer(rate: nat, length: nat, dropped: nat, cursor: int)
    requires dropped <= length
    ensures Ready(rate, length - dropped, cursor) == Ready(rate, length, cursor + UNIT * dropped)
  {
    var position := cursor + (FRAME_SAMPLES - 1) * rate;
    assert Ceil(position + UNIT * dropped) == Ceil(position) + dropped;
  }

  /**
   * A ready frame reads only samples the buffer holds: the one at or before each position, and the next one wherever
   * the position lies between two.
   */
  lemma ReadsAreInBuffer(rate: nat, length: nat, cursor: nat, i: nat)
    requires Ready(rate, length, cursor) && i < FRAME_SAMPLES
    ensures (cursor + i * rate) / UNIT < length
    ensures (cursor + i * rate) % UNIT != 0 ==> (cursor + i * rate) / UNIT + 1 < length
  {
    OffsetInFrame(rate, i);
    FloorBelowCeil(cursor + i * rate, cursor + (FRAME_SAMPLES - 1) * rate);
  }

  lemma OffsetInFrame(rate: nat, i: nat)
    requires i < FRAME_SAMPLES
    ensures i * rate <= (FRAME_SAMPLES - 1) * rate
  {
    var left := FRAME_SAMPLES - 1 - i;
    assert (i + left) * rate == i * rate + left * rate;
  }

  lemma FloorBelowCeil(position: nat, last: nat)
    requires position <= last
    ensures position / UNIT <= Ceil(last)
    ensures position % UNIT != 0 ==> position / UNIT + 1 <= Ceil(last)
  {
  }

  /** Frames already complete do not change when more of the stream arrives. */
  lemma {:induction false} FramesGrow(rate: nat, stream: Samples, more: Samples, k: nat)
    requires rate > 0
    ensures FramesFrom(rate, stream + more, k) ==
            FramesFrom(rate, stream, k) + FramesFrom(rate, stream + more, k + |FramesFrom(rate, stream, k)|)
    decreases UNIT * |stream| - Start(rate, k)
  {
    if Ready(rate, |stream|, Start(rate, k)) {
      NextStart(rate, k);
      FramesGrow(rate, stream, more, k + 1);
      FrameGrows(rate, stream, more, Start(rate, k));
      var rest := FramesFrom(rate, stream, k + 1);
      var tail := FramesFrom(rate, stream + more, k + 1 + |rest|);
      FirstOfAll(FrameAt(rate, stream, Start(rate, k)), rest, tail);
    } else {
      NothingInFront(FramesFrom(rate, stream + more, k));
    }
  }

  lemma FirstOfAll(first: Frame, rest: seq<Frame>, tail: seq<Frame>)
    ensures [first] + (rest + tail) == ([first] + rest) + tail
  {
  }

  lemma NothingInFront(frames: seq<Frame>)
    ensures [] + frames == frames
  {
  }

  // ----------------------------------------------- independence of block boundaries

  /** Below twice the target rate the samples to drop are always there. */
  lemma DropIsThere(rate: nat, length: nat, last: nat)
    requires 0 < rate < 2 * UNIT && last >= FRAME_SAMPLES * rate && Ready(rate, length, last - FRAME_SAMPLES * rate)
    ensures last / UNIT <= length
  {
  }

  /** What a framer knows after any pushes: it is aligned, and no complete frame is waiting. */
  ghost predicate FramerInv(rate: nat, framer: Framer, stream: Samples, k: nat) {
    && (exists dropped: nat :: Aligned(rate, framer, stream, dropped, k))
    && !Ready(rate, |stream|, Start(rate, k))
  }

  lemma BufferGrows(stream: Samples, input: Samples, dropped: nat)
    requires dropped <= |stream|
    ensures stream[dropped..] + input == (stream + input)[dropped..]
  {
  }

  lemma BufferShrinks(stream: Samples, dropped: nat, drop: nat)
    requires dropped <= |stream|
    ensures dropped + drop <= |stream| ==> stream[dropped..][drop..] == stream[dropped + drop..]
  {
  }

  lemma PushKeepsAlignment(rate: nat, framer: Framer, stream: Samples, k: nat, input: Samples)
    requires 0 < rate < 2 * UNIT && framer.cursor >= 0 && FramerInv(rate, framer, stream, k)
    ensures var (after, frames) := Pushed(rate, framer, input);
      && frames == FramesFrom(rate, stream + input, k)
      && FramerInv(rate, after, stream + input, k + |frames|)
  {
    var dropped: nat :| Aligned(rate, framer, stream, dropped, k);
    var whole := stream + input;
    var (after, frames) := Pushed(rate, framer, input);
    if input == [] {
      assert whole == stream;
    } else {
      BufferGrows(stream, input, dropped);
      EmitIsReference(rate, whole, dropped, k, framer.cursor);
      var last := Emit(rate, whole[dropped..], framer.cursor).1;
      var drop := last / UNIT;
      if frames != [] {
        DropIsThere(rate, |whole| - dropped, last);
      }
      BufferShrinks(whole, dropped, drop);
      assert Aligned(rate, after, whole, dropped + drop, k + |frames|);
    }
  }

  lemma {:induction false} PushesFollowTheStream(rate: nat, inputs: seq<Samples>)
    requires 0 < rate < 2 * UNIT
    ensures var (after, frames) := PushedAll(rate, NewFramer, inputs);
      frames == FramesFrom(rate, Concat(inputs), 0) && FramerInv(rate, after, Concat(inputs), |frames|)
  {
    if inputs == [] {
      assert Aligned(rate, NewFramer, [], 0, 0);
    } else {
      var front, last := inputs[..|inputs| - 1], inputs[|inputs| - 1];
      PushesFollowTheStream(rate, front);
      var (before, frames) := PushedAll(rate, NewFramer, front);
      PushKeepsAlignment(rate, before, Concat(front), |frames|, last);
      FramesGrow(rate, Concat(front), last, 0);
    }
  }

  /** The frames depend on the samples only, not on how they were split into pushes. */
  ghost predicate BlockIndependent(rate: nat)
    requires rate > 0
  {
    forall inputs: seq<Samples> :: PushedAll(rate, NewFramer, inputs).1 == Pushed(rate, NewFramer, Concat(inputs)).1
  }

  lemma SlowSourcesAreBlockIndependent(rate: nat)
    requires 0 < rate < 2 * UNIT
    ensures BlockIndependent(rate)
  {
    forall inputs: seq<Samples>
      ensures PushedAll(rate, NewFramer, inputs).1 == Pushed(rate, NewFramer, Concat(inputs)).1
    {
      PushesFollowTheStream(rate, inputs);
      OnePush(rate, Concat(inputs));
    }
  }

  lemma OnePush(rate: nat, stream: Samples)
    requires rate > 0
    ensures Pushed(rate, NewFramer, stream).1 == FramesFrom(rate, stream, 0)
  {
    if stream != [] {
      assert [] + stream == stream && stream[0..] == stream;
      EmitIsReference(rate, stream, 0, 0, 0);
    }
  }

  // At twice the target rate and above the promise fails: after five frames the cursor stands
  // exactly `rate` samples into the stream, but the five frames are complete a sample earlier.

  /** The shortest block that completes five frames. */
  function FiveFrames(rate: nat): nat { rate - rate / UNIT + 1 }

  /** Silence that completes five frames, then silence with one full-scale sample at its start. */
  function Silence(n: nat): Samples { seq(n, _ => 0.0) }

  lemma FiveFramesOvershoot(rate: nat)
    requires rate >= 2 * UNIT
    ensures Pushed(rate, NewFramer, Silence(FiveFrames(rate))).0 == Framer([], 0)
    ensures |Pushed(rate, NewFramer, Silence(FiveFrames(rate))).1| == 5
  {
    var first := Silence(FiveFrames(rate));
    assert [] + first == first;
    var step := FRAME_SAMPLES * rate;
    assert 5 * step == UNIT * rate;
    assert Ready(rate, |first|, 4 * step);
    assert !Ready(rate, |first|, 5 * step);
    assert Ready(rate, |first|, 0) && Ready(rate, |first|, step);
    assert Ready(rate, |first|, 2 * step) && Ready(rate, |first|, 3 * step);
    assert Emit(rate, first, 5 * step) == ([], 5 * step);
    assert Emit(rate, first, 4 * step).1 == 5 * step && |Emit(rate, first, 4 * step).0| == 1;
    assert Emit(rate, first, 3 * step).1 == 5 * step && |Emit(rate, first, 3 * step).0| == 2;
    assert Emit(rate, first, 2 * step).1 == 5 * step && |Emit(rate, first, 2 * step).0| == 3;
    assert Emit(rate, first, step).1 == 5 * step && |Emit(rate, first, step).0| == 4;
    assert Emit(rate, first, 0).1 == 5 * step && |Emit(rate, first, 0).0| == 5;
    assert (5 * step) / UNIT == rate;
  }

  lemma {:induction false} FrameOfStream(rate: nat, stream: Samples, k: nat, j: nat)
    requires rate > 0 && Ready(rate, |stream|, Start(rate, k + j))
    ensures |FramesFrom(rate, stream, k)| > j && FramesFrom(rate, stream, k)[j] == FrameAt(rate, stream, Start(rate, k + j))
    decreases j
  {
    assert Start(rate, k) <= Start(rate, k + j);
    if j > 0 {
      FrameOfStream(rate, stream, k + 1, j - 1);
    }
  }

  /** A click after the silence: one full-scale sample, then silence for at least a frame. */
  function Click(rate: nat): Samples { [1.0] + Silence(3 * rate) }

  lemma SplitSixthFrame(rate: nat)
    requires rate >= 2 * UNIT
    ensures var frames := PushedAll(rate, NewFramer, [Silence(FiveFrames(rate)), Click(rate)]).1;
      |frames| > 5 && frames[5] == FrameAt(rate, Click(rate), 0)
  {
    var first, second := Silence(FiveFrames(rate)), Click(rate);
    FiveFramesOvershoot(rate);
    TwoPushes(rate, first, second);
    assert [] + second == second && Ready(rate, |second|, 0);
  }

  lemma WholeSixthFrame(rate: nat)
    requires rate >= 2 * UNIT
    ensures var stream := Silence(FiveFrames(rate)) + Click(rate);
      var frames := Pushed(rate, NewFramer, stream).1;
      |frames| > 5 && frames[5] == FrameAt(rate, stream, UNIT * rate)
  {
    var stream := Silence(FiveFrames(rate)) + Click(rate);
    OnePush(rate, stream);
    assert Start(rate, 5) == UNIT * rate;
    FrameOfStream(rate, stream, 0, 5);
  }

  lemma WholeSample(samples: Samples, i: nat)
    requires i < |samples|
    ensures Interpolate(samples, UNIT * i) == ToInt16(Clamp(samples[i]))
  {
    assert (UNIT * i) / UNIT == i && (UNIT * i) % UNIT == 0;
    assert Fraction(UNIT * i) == 0.0;
    NeighbourNotNeeded(samples[i], At(samples, i + 1, samples[i]));
  }

  lemma SplitSixthSample(rate: nat)
    requires rate >= 2 * UNIT
    ensures var frames := PushedAll(rate, NewFramer, [Silence(FiveFrames(rate)), Click(rate)]).1;
      |frames| > 5 && |frames[5]| == FRAME_SAMPLES && frames[5][0] == 32767
  {
    SplitSixthFrame(rate);
    WholeSample(Click(rate), 0);
    assert FrameAt(rate, Click(rate), 0)[0] == Interpolate(Click(rate), UNIT * 0);
  }

  lemma WholeSixthSample(rate: nat)
    requires rate >= 2 * UNIT
    ensures var frames := Pushed(rate, NewFramer, Silence(FiveFrames(rate)) + Click(rate)).1;
      |frames| > 5 && |frames[5]| == FRAME_SAMPLES && frames[5][0] == 0
  {
    var stream := Silence(FiveFrames(rate)) + Click(rate);
    WholeSixthFrame(rate);
    WholeSample(stream, rate);
    assert stream[rate] == 0.0;
    assert FrameAt(rate, stream, UNIT * rate)[0] == Interpolate(stream, UNIT * rate);
  }

  /** Two pushes and one push of the same samples disagree on the first sample of the sixth frame. */
  lemma FastSourcesAreNot(rate: nat)
    requires rate >= 2 * UNIT
    ensures !BlockIndependent(rate)
  {
    var first, second := Silence(FiveFrames(rate)), Click(rate);
    SplitSixthSample(rate);
    WholeSixthSample(rate);
    TwoPushes(rate, first, second);
    assert PushedAll(rate, NewFramer, [first, second]).1 != Pushed(rate, NewFramer, Concat([first, second])).1;
  }

  lemma TwoPushes(rate: nat, first: Samples, second: Samples)
    requires rate > 0
    ensures var (after, frames) := Pushed(rate, NewFramer, first);
      PushedAll(rate, NewFramer, [first, second]).1 == frames + Pushed(rate, after, second).1
    ensures Concat([first, second]) == first + second
  {
    assert [first, second][..1] == [first] && [first][..0] == [];
    assert PushedAll(rate, NewFramer, [first]) == (Pushed(rate, NewFramer, first).0, [] + Pushed(rate, NewFramer, first).1);
    assert Concat([first]) == [] + first;
  }

  /** Block boundaries are invisible exactly for sources slower than twice the target rate. */
  lemma BlockIndependentIff(rate: nat)
    requires rate > 0
    ensures BlockIndependent(rate) <==> rate < 2 * UNIT
  {
    if rate < 2 * UNIT {
      SlowSourcesAreBlockIndependent(rate);
    } else {
      FastSourcesAreNot(rate);
    }
  }

  // ------------------------------------------------------------- what the samples are

  /** The 16-bit value nearest to a sample, halves up; full scale is 32767 above zero and 32768 below. */
  predicate IsNearest16(n: int, sample: real) {
    var exact := if sample < 0.0 then sample * 32768.0 else sample * 32767.0;
    -0.5 <= exact - n as real < 0.5
  }

  lemma ToInt16IsNearest(sample: real)
    requires -1.0 <= sample <= 1.0
    ensures IsNearest16(ToInt16(sample), sample) && -32768 <= ToInt16(sample) <= 32767
  {
  }

  /** Between two samples the point lies between them, as far from the first as the fraction says. */
  lemma BetweenInProportion(a: real, b: real, fraction: real)
    requires -1.0 <= a <= 1.0 && -1.0 <= b <= 1.0 && 0.0 <= fraction <= 1.0
    ensures var point := Between(a, b, fraction);
      (a <= point <= b || b <= point <= a) && point - a == (b - a) * fraction
  {
    var step := StepBetween(a, b, fraction);
    StepInRange(b - a, fraction, step);
    ClampInside(a, b, step);
  }

  lemma StepBetween(a: real, b: real, fraction: real) returns (step: real)
    ensures step == (b - a) * fraction && Between(a, b, fraction) == Clamp(a + step)
  {
    step := (b - a) * fraction;
  }

  lemma ClampInside(a: real, b: real, step: real)
    requires -1.0 <= a <= 1.0 && -1.0 <= b <= 1.0
    requires 0.0 <= step <= b - a || b - a <= step <= 0.0
    ensures Clamp(a + step) == a + step && (a <= a + step <= b || b <= a + step <= a)
  {
  }

  lemma ProductNotNegative(x: real, y: real)
    requires x >= 0.0 && y >= 0.0
    ensures x * y >= 0.0
  {
  }

  lemma StepInRange(x: real, fraction: real, step: real)
    requires 0.0 <= fraction <= 1.0 && step == x * fraction
    ensures if x >= 0.0 then 0.0 <= step <= x else x <= step <= 0.0
  {
    if x >= 0.0 {
      ProductNotNegative(x, fraction);
      ProductNotNegative(x, 1.0 - fraction);
    } else {
      ProductNotNegative(-x, fraction);
      ProductNotNegative(-x, 1.0 - fraction);
    }
  }

  /** The value of a stream at a position: a sample, or on the line between two neighbours. */
  function PointAt(stream: Samples, position: nat): real
    requires position / UNIT < |stream| && (position % UNIT != 0 ==> position / UNIT + 1 < |stream|)
  {
    var left := stream[position / UNIT];
    if position % UNIT == 0 then left
    else Line(left, stream[position / UNIT + 1], Fraction(position))
  }

  lemma {:induction false} InterpolateIsPoint(stream: Samples, position: nat)
    requires position / UNIT < |stream| && (position % UNIT != 0 ==> position / UNIT + 1 < |stream|)
    ensures IsNearest16(Interpolate(stream, position), Clamp(PointAt(stream, position)))
  {
    if position % UNIT == 0 {
      OnASample(stream, position);
    }
    ClampedIsNearest(PointAt(stream, position));
  }

  lemma OnASample(stream: Samples, position: nat)
    requires position / UNIT < |stream| && position % UNIT == 0
    ensures Interpolate(stream, position) == ToInt16(Clamp(PointAt(stream, position)))
  {
    var a := stream[position / UNIT];
    assert Fraction(position) == 0.0;
    NeighbourNotNeeded(a, At(stream, position / UNIT + 1, a));
  }

  lemma ClampedIsNearest(x: real)
    ensures IsNearest16(ToInt16(Clamp(x)), Clamp(x))
  {
    ToInt16IsNearest(Clamp(x));
  }

  lemma {:induction false} FrameIsReady(rate: nat, stream: Samples, k: nat, j: nat)
    requires rate > 0 && j < |FramesFrom(rate, stream, k)|
    ensures Ready(rate, |stream|, Start(rate, k + j))
    decreases j
  {
    if j > 0 {
      FrameIsReady(rate, stream, k + 1, j - 1);
    }
  }

  lemma PositionOf(rate: nat, k: nat, i: nat)
    ensures Start(rate, k) + i * rate == (k * FRAME_SAMPLES + i) * rate
  {
    assert k * (FRAME_SAMPLES * rate) == (k * FRAME_SAMPLES) * rate;
  }

  /**
   * Sample i of frame k, however the stream was split into pushes: with n samples before it the stream is read at
   * position n * rate / 16000, on the line between the neighbours there, clamped and rounded to 16 bits.
   */
  lemma {:induction false} SampleOfStream(rate: nat, inputs: seq<Samples>, k: nat, i: nat)
    requires 0 < rate < 2 * UNIT && i < FRAME_SAMPLES && k < |PushedAll(rate, NewFramer, inputs).1|
    ensures var stream, position := Concat(inputs), (k * FRAME_SAMPLES + i) * rate;
      && position / UNIT < |stream| && (position % UNIT != 0 ==> position / UNIT + 1 < |stream|)
      && |PushedAll(rate, NewFramer, inputs).1[k]| == FRAME_SAMPLES
      && IsNearest16(PushedAll(rate, NewFramer, inputs).1[k][i], Clamp(PointAt(stream, position)))
  {
    PushesFollowTheStream(rate, inputs);
    SampleOfFrame(rate, Concat(inputs), k, i);
    PositionOf(rate, k, i);
  }

  lemma {:induction false} SampleOfFrame(rate: nat, stream: Samples, k: nat, i: nat)
    requires rate > 0 && i < FRAME_SAMPLES && k < |FramesFrom(rate, stream, 0)|
    ensures var frames, position := FramesFrom(rate, stream, 0), Start(rate, k) + i * rate;
      && position / UNIT < |stream| && (position % UNIT != 0 ==> position / UNIT + 1 < |stream|)
      && |frames[k]| == FRAME_SAMPLES && IsNearest16(frames[k][i], Clamp(PointAt(stream, position)))
  {
    FrameIsReady(rate, stream, 0, k);
    FrameOfStream(rate, stream, 0, k);
    SampleAt(rate, stream, Start(rate, k), i);
  }

  lemma {:induction false} SampleAt(rate: nat, stream: Samples, cursor: nat, i: nat)
    requires Ready(rate, |stream|, cursor) && i < FRAME_SAMPLES
    ensures var position := cursor + i * rate;
      && position / UNIT < |stream| && (position % UNIT != 0 ==> position / UNIT + 1 < |stream|)
      && IsNearest16(FrameAt(rate, stream, cursor)[i], Clamp(PointAt(stream, position)))
  {
    ReadsAreInBuffer(rate, |stream|, cursor, i);
    InterpolateIsPoint(stream, cursor + i * rate);
  }

  lemma {:induction false} FramesAtTargetRate(stream: Samples, k: nat)
    requires k * FRAME_SAMPLES <= |stream|
    ensures |FramesFrom(UNIT, stream, k)| == |stream| / FRAME_SAMPLES - k
    decreases |stream| - k * FRAME_SAMPLES
  {
    if Ready(UNIT, |stream|, Start(UNIT, k)) {
      FramesAtTargetRate(stream, k + 1);
    }
  }

  /** A source at the target rate is only cut into frames: no sample is resampled, lost or repeated. */
  lemma {:induction false} TargetRateIsKept(inputs: seq<Samples>, k: nat, i: nat)
    requires i < FRAME_SAMPLES && k < |PushedAll(UNIT, NewFramer, inputs).1|
    ensures |PushedAll(UNIT, NewFramer, inputs).1| == |Concat(inputs)| / FRAME_SAMPLES
    ensures k * FRAME_SAMPLES + i < |Concat(inputs)| && |PushedAll(UNIT, NewFramer, inputs).1[k]| == FRAME_SAMPLES
    ensures IsNearest16(PushedAll(UNIT, NewFramer, inputs).1[k][i], Clamp(Concat(inputs)[k * FRAME_SAMPLES + i]))
  {
    PushesFollowTheStream(UNIT, inputs);
    FramesAtTargetRate(Concat(inputs), 0);
    SampleOfStream(UNIT, inputs, k, i);
    var n := k * FRAME_SAMPLES + i;
    assert (n * UNIT) / UNIT == n && (n * UNIT) % UNIT == 0;
  }
}
