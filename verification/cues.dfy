/** Cue construction for transcript exports: apps/web/src/server/export/cues.ts. */
module Cues {
  import opened SentenceSplitter
  import opened Text

  const MAX_CUE_MS := 7000
  const MIN_CUE_MS := 800

  /** A segment or a cue. */
  datatype Cue = Cue(startMs: int, endMs: int, text: string)

  /** Every cue ends no earlier than it starts, and no later than any cue behind it starts. */
  predicate Ordered(cues: seq<Cue>) {
    && (forall i | 0 <= i < |cues| :: cues[i].startMs <= cues[i].endMs)
    && (forall i, j | 0 <= i < j < |cues| :: cues[i].endMs <= cues[j].startMs)
  }

  function Texts(cues: seq<Cue>): (texts: seq<string>) {
    seq(|cues|, i requires 0 <= i < |cues| => cues[i].text)
  }

  function CueWords(cues: seq<Cue>): seq<string> { WordsOf(Texts(cues)) }

  lemma CueWordsConcat(a: seq<Cue>, b: seq<Cue>)
    ensures CueWords(a + b) == CueWords(a) + CueWords(b)
  {
    assert Texts(a + b) == Texts(a) + Texts(b);
    WordsOfConcat(Texts(a), Texts(b));
  }

  lemma WordsOfCue(cue: Cue)
    ensures CueWords([cue]) == Words(cue.text)
  {
    assert Texts([cue]) == [cue.text];
    WordsOfOne(cue.text);
  }

  // splitLongCue

  function Chars(parts: seq<string>): (n: nat)
    ensures parts == [] ==> n == 0
  {
    if parts == [] then 0 else Chars(parts[..|parts| - 1]) + |parts[|parts| - 1]|
  }

  lemma {:induction false} CharsGrow(parts: seq<string>, k: nat)
    requires k <= |parts|
    ensures Chars(parts[..k]) <= Chars(parts)
  {
    if k == |parts| {
      assert parts[..k] == parts;
    } else {
      var front := parts[..|parts| - 1];
      CharsGrow(front, k);
      assert front[..k] == parts[..k];
    }
  }

  /** Math.round of a quotient: the nearest integer, halves up. */
  function Rounded(dividend: nat, divisor: nat): nat
    requires divisor > 0
  {
    (2 * dividend + divisor) / (2 * divisor)
  }

  /** Where the k-th part starts and the one before it ends. */
  function Border(cue: Cue, parts: seq<string>, k: nat): int
    requires k <= |parts| && Chars(parts) > 0 && cue.startMs <= cue.endMs
  {
    if k == 0 then cue.startMs
    else if k == |parts| then cue.endMs
    else cue.startMs + Rounded((cue.endMs - cue.startMs) * Chars(parts[..k]), Chars(parts))
  }

  function PartCue(cue: Cue, parts: seq<string>, k: nat): Cue
    requires k < |parts| && Chars(parts) > 0 && cue.startMs <= cue.endMs
  {
    Cue(Border(cue, parts, k), Border(cue, parts, k + 1), parts[k])
  }

  function PartCues(cue: Cue, parts: seq<string>, n: nat): seq<Cue>
    requires n <= |parts| && Chars(parts) > 0 && cue.startMs <= cue.endMs
  {
    seq(n, k requires 0 <= k < n => PartCue(cue, parts, k))
  }

  lemma SentencesHaveChars(text: string)
    ensures Sentences(text) != [] ==> Chars(Sentences(text)) > 0
  {
    var parts := Sentences(text);
    if parts != [] {
      SentencesAreTrimmed(text);
      var last := parts[|parts| - 1];
      assert |last| > 0;
    }
  }

  function SplitLong(cue: Cue): seq<Cue> {
    var parts := Sentences(cue.text);
    SentencesHaveChars(cue.text);
    if cue.endMs - cue.startMs <= MAX_CUE_MS || |parts| <= 1 then [cue] else PartCues(cue, parts, |parts|)
  }

  method SplitLongCue(cue: Cue) returns (cues: seq<Cue>)
    ensures cues == SplitLong(cue)
  {
    if cue.endMs - cue.startMs <= MAX_CUE_MS {
      return [cue];
    }
    var parts := SplitSentences(cue.text);
    SentencesHaveChars(cue.text);
    cues := if |parts| <= 1 then [cue] else [];
    if |parts| > 1 {
      cues := ShareOut(cue, parts);
    }
  }

  /** The loop of splitLongCue: each part's share of the duration is that of its characters. */
  method ShareOut(cue: Cue, parts: seq<string>) returns (cues: seq<Cue>)
    requires Chars(parts) > 0 && cue.startMs <= cue.endMs
    ensures cues == PartCues(cue, parts, |parts|)
  {
    var totalChars := TotalChars(parts);
    var duration := cue.endMs - cue.startMs;
    cues := [];
    var chars, startMs := 0, cue.startMs;
    for i := 0 to |parts|
      invariant chars == Chars(parts[..i]) && startMs == Border(cue, parts, i)
      invariant cues == PartCues(cue, parts, i)
    {
      CharsOfOneMore(parts, i);
      chars := chars + |parts[i]|;
      var endMs := if i == |parts| - 1 then cue.endMs else cue.startMs + Rounded(duration * chars, totalChars);
      assert PartCues(cue, parts, i + 1) == PartCues(cue, parts, i) + [PartCue(cue, parts, i)];
      cues := cues + [Cue(startMs, endMs, parts[i])];
      startMs := endMs;
    }
  }

  lemma CharsOfOneMore(parts: seq<string>, i: nat)
    requires i < |parts|
    ensures Chars(parts[..i + 1]) == Chars(parts[..i]) + |parts[i]|
  {
    assert parts[..i + 1][..i] == parts[..i];
  }

  method TotalChars(parts: seq<string>) returns (n: nat)
    ensures n == Chars(parts)
  {
    n := 0;
    for i := 0 to |parts|
      invariant n == Chars(parts[..i])
    {
      CharsOfOneMore(parts, i);
      n := n + |parts[i]|;
    }
    assert parts[..|parts|] == parts;
  }

  // Pieces of a long cue

  /** The rounded quotient is at most half a unit away from the exact one. */
  lemma RoundedIsNearest(dividend: nat, divisor: nat)
    requires divisor > 0
    ensures 0 - divisor < 2 * (Rounded(dividend, divisor) * divisor - dividend) <= divisor
  {
    var sum := 2 * dividend + divisor;
    var quotient := sum / (2 * divisor);
    assert sum == quotient * (2 * divisor) + sum % (2 * divisor);
    assert quotient * (2 * divisor) == 2 * (quotient * divisor);
  }

  lemma RoundedIsMonotone(a: nat, b: nat, divisor: nat)
    requires divisor > 0 && a <= b
    ensures Rounded(a, divisor) <= Rounded(b, divisor)
  {
    var x, y, d := 2 * a + divisor, 2 * b + divisor, 2 * divisor;
    QuotientsAreOrdered(x / d, x % d, y / d, y % d, d);
  }

  lemma QuotientsAreOrdered(p: nat, r: nat, q: nat, s: nat, d: nat)
    requires r < d && s < d && p * d + r <= q * d + s
    ensures p <= q
  {
    if p > q {
      NextMultiple(q, p, d);
    }
  }

  lemma NextMultiple(q: nat, p: nat, d: nat)
    requires q < p
    ensures q * d + d <= p * d
  {
    var gap := p - q - 1;
    assert (q + 1 + gap) * d == q * d + d + gap * d;
  }

  lemma RoundedOfMultiple(n: nat, divisor: nat)
    requires divisor > 0
    ensures Rounded(n * divisor, divisor) == n
  {
    var x, d := 2 * (n * divisor) + divisor, 2 * divisor;
    assert x == n * d + divisor;
    QuotientsAreOrdered(n, divisor, x / d, x % d, d);
    QuotientsAreOrdered(x / d, x % d, n, divisor, d);
  }

  lemma {:induction false} BordersAreOrdered(cue: Cue, parts: seq<string>, i: nat, j: nat)
    requires i <= j <= |parts| && Chars(parts) > 0 && cue.startMs <= cue.endMs
    ensures cue.startMs <= Border(cue, parts, i) <= Border(cue, parts, j) <= cue.endMs
  {
    var duration, total := cue.endMs - cue.startMs, Chars(parts);
    CharsGrow(parts, j);
    CharsGrow(parts[..j], i);
    assert parts[..j][..i] == parts[..i];
    var before, after := Chars(parts[..i]), Chars(parts[..j]);
    Scale(duration, before, after);
    Scale(duration, after, total);
    RoundedIsMonotone(duration * before, duration * after, total);
    RoundedIsMonotone(duration * after, duration * total, total);
    RoundedOfMultiple(duration, total);
  }

  lemma Scale(d: nat, a: nat, b: nat)
    requires a <= b
    ensures d * a <= d * b
  {
    var gap := b - a;
    assert d * (a + gap) == d * a + d * gap;
  }

  /** The pieces fill the cue from its start to its end without gap or overlap. */
  predicate Tiles(cue: Cue, pieces: seq<Cue>) {
    && pieces != []
    && pieces[0].startMs == cue.startMs && pieces[|pieces| - 1].endMs == cue.endMs
    && (forall i | 0 <= i < |pieces| - 1 :: pieces[i].endMs == pieces[i + 1].startMs)
    && Ordered(pieces)
  }

  lemma LongCueIsTiled(cue: Cue)
    requires cue.startMs <= cue.endMs
    ensures Tiles(cue, SplitLong(cue)) && CueWords(SplitLong(cue)) == Words(cue.text)
  {
    var parts := Sentences(cue.text);
    if cue.endMs - cue.startMs <= MAX_CUE_MS || |parts| <= 1 {
      WordsOfCue(cue);
    } else {
      SentencesHaveChars(cue.text);
      PartsTile(cue, parts);
      PartsKeepWords(cue, parts);
      SentencesKeepWords(cue.text);
    }
  }

  lemma PartTexts(cue: Cue, parts: seq<string>)
    requires Chars(parts) > 0 && cue.startMs <= cue.endMs
    ensures |PartCues(cue, parts, |parts|)| == |parts| && Texts(PartCues(cue, parts, |parts|)) == parts
  {
  }

  /** After splitting, whatever is longer than 7 s is a single sentence; and no cue of at most 7 s was cut. */
  lemma OnlyLongSentencesStayLong(cue: Cue)
    ensures forall i | 0 <= i < |SplitLong(cue)| ::
      SplitLong(cue)[i].endMs - SplitLong(cue)[i].startMs > MAX_CUE_MS ==> |Sentences(SplitLong(cue)[i].text)| <= 1
    ensures |SplitLong(cue)| > 1 ==> cue.endMs - cue.startMs > MAX_CUE_MS
  {
    var parts := Sentences(cue.text);
    if cue.endMs - cue.startMs <= MAX_CUE_MS || |parts| <= 1 {
      assert SplitLong(cue) == [cue];
    } else {
      SentencesHaveChars(cue.text);
      CutExactlyAtSentences(cue.text);
      PartsAreSentences(cue, parts);
      assert SplitLong(cue) == PartCues(cue, parts, |parts|);
    }
  }

  lemma PartsAreSentences(cue: Cue, parts: seq<string>)
    requires Chars(parts) > 0 && cue.startMs <= cue.endMs
    requires forall k | 0 <= k < |parts| :: Sentences(parts[k]) == [parts[k]]
    ensures forall i | 0 <= i < |PartCues(cue, parts, |parts|)| :: |Sentences(PartCues(cue, parts, |parts|)[i].text)| == 1
  {
    var pieces := PartCues(cue, parts, |parts|);
    forall i | 0 <= i < |pieces|
      ensures |Sentences(pieces[i].text)| == 1
    {
      assert Sentences(parts[i]) == [parts[i]];
    }
  }

  lemma PartsKeepWords(cue: Cue, parts: seq<string>)
    requires Chars(parts) > 0 && cue.startMs <= cue.endMs
    ensures CueWords(PartCues(cue, parts, |parts|)) == WordsOf(parts)
  {
    PartTexts(cue, parts);
  }

  lemma PartsTile(cue: Cue, parts: seq<string>)
    requires Chars(parts) > 0 && cue.startMs <= cue.endMs
    ensures Tiles(cue, PartCues(cue, parts, |parts|))
  {
    var borders := seq(|parts| + 1, k requires 0 <= k <= |parts| => Border(cue, parts, k));
    forall i, j | 0 <= i <= j < |borders|
      ensures borders[i] <= borders[j]
    {
      BordersAreOrdered(cue, parts, i, j);
    }
    TilesBetween(cue, PartCues(cue, parts, |parts|), borders);
  }

  lemma TilesBetween(cue: Cue, pieces: seq<Cue>, borders: seq<int>)
    requires pieces != [] && |borders| == |pieces| + 1
    requires borders[0] == cue.startMs && borders[|pieces|] == cue.endMs
    requires forall i, j | 0 <= i <= j < |borders| :: borders[i] <= borders[j]
    requires forall i | 0 <= i < |pieces| :: pieces[i].startMs == borders[i] && pieces[i].endMs == borders[i + 1]
    ensures Tiles(cue, pieces)
  {
    var last := |pieces| - 1;
    assert pieces[last].endMs == borders[last + 1];
    forall i, j | 0 <= i <= j < |pieces|
      ensures pieces[i].startMs <= pieces[i].endMs && (i < j ==> pieces[i].endMs <= pieces[j].startMs)
    {
      assert borders[i] <= borders[i + 1] && (i < j ==> borders[i + 1] <= borders[j]);
    }
  }

  /**
   * Each cut of a long cue is the exact proportional share of its characters, to the nearest millisecond: with
   * T characters in all and c of them before the cut, the cut is within half a millisecond of start + duration * c / T.
   */
  lemma {:induction false} CutsAreProportional(cue: Cue, k: nat)
    requires cue.startMs <= cue.endMs && 0 < k < |SplitLong(cue)|
    ensures var pieces, parts := SplitLong(cue), Sentences(cue.text);
      && |parts| == |pieces| && Texts(pieces) == parts
      && IsNearestShare(pieces[k].startMs - cue.startMs, cue.endMs - cue.startMs, Chars(parts[..k]), Chars(parts))
  {
    var pieces, parts := SplitLong(cue), Sentences(cue.text);
    SplitAtSentences(cue);
    PartIsProportional(cue, parts, pieces, k);
  }

  lemma {:induction false} PartIsProportional(cue: Cue, parts: seq<string>, pieces: seq<Cue>, k: nat)
    requires Chars(parts) > 0 && cue.startMs <= cue.endMs && 0 < k < |parts| && pieces == PartCues(cue, parts, |parts|)
    ensures |parts| == |pieces| && Texts(pieces) == parts
      && IsNearestShare(pieces[k].startMs - cue.startMs, cue.endMs - cue.startMs, Chars(parts[..k]), Chars(parts))
  {
    PartTexts(cue, parts);
    BorderIsNearest(cue, parts, k);
  }

  /** cut is duration * before / total, rounded to the nearest integer. */
  predicate IsNearestShare(cut: int, duration: int, before: nat, total: nat) {
    0 - total < 2 * (cut * total - duration * before) <= total
  }

  lemma SplitAtSentences(cue: Cue)
    requires |SplitLong(cue)| > 1
    ensures var parts := Sentences(cue.text);
      Chars(parts) > 0 && cue.startMs <= cue.endMs && |parts| > 1 && SplitLong(cue) == PartCues(cue, parts, |parts|)
  {
    SentencesHaveChars(cue.text);
  }

  lemma {:induction false} BorderIsNearest(cue: Cue, parts: seq<string>, k: nat)
    requires Chars(parts) > 0 && cue.startMs <= cue.endMs && 0 < k < |parts|
    ensures IsNearestShare(Border(cue, parts, k) - cue.startMs, cue.endMs - cue.startMs, Chars(parts[..k]), Chars(parts))
  {
    RoundedIsNearest((cue.endMs - cue.startMs) * Chars(parts[..k]), Chars(parts));
  }
}
