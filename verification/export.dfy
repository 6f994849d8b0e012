/** A whole SRT export: buildCues in cues.ts, toSrt in srt.ts and the reader in scripts/smoke.mjs. */
module Export {
  import opened CueMerging
  import opened Cues
  import opened Options
  import opened SentenceSplitter
  import opened Srt
  import opened Text

  predicate AllInRange(cues: seq<Cue>) { forall i {:trigger cues[i]} | 0 <= i < |cues| :: InRange(cues[i]) }

  lemma PrintableParts(a: seq<Cue>, b: seq<Cue>)
    requires AllPrintable(a + b)
    ensures AllPrintable(a) && AllPrintable(b)
  {
    assert forall i | 0 <= i < |a| :: a[i] == (a + b)[i];
    assert forall i | 0 <= i < |b| :: b[i] == (a + b)[|a| + i];
  }

  lemma {:induction false} TrimmedArePrintable(segments: seq<Cue>)
    requires AllInRange(segments)
    ensures AllPrintable(Trimmed(segments))
  {
    if segments != [] {
      TrimmedArePrintable(segments[1..]);
    }
  }

  lemma PiecesArePrintable(cue: Cue)
    requires Printable(cue)
    ensures AllPrintable(SplitLong(cue))
  {
    var parts := Sentences(cue.text);
    SentencesAreTrimmed(cue.text);
    SentencesHaveChars(cue.text);
    if cue.endMs - cue.startMs <= MAX_CUE_MS || |parts| <= 1 {
      assert SplitLong(cue) == [cue];
    } else {
      PartsArePrintable(cue, parts);
      assert SplitLong(cue) == PartCues(cue, parts, |parts|);
    }
  }

  lemma PartsArePrintable(cue: Cue, parts: seq<string>)
    requires InRange(cue) && cue.startMs <= cue.endMs && Chars(parts) > 0
    requires AllTrimmed(parts)
    ensures AllPrintable(PartCues(cue, parts, |parts|))
  {
    forall k | 0 <= k < |parts|
      ensures Printable(PartCue(cue, parts, k))
    {
      BordersAreOrdered(cue, parts, k, k + 1);
    }
  }

  lemma {:induction false} SplitAllArePrintable(cues: seq<Cue>)
    requires AllPrintable(cues)
    ensures AllPrintable(SplitAll(cues))
  {
    if cues != [] {
      PiecesArePrintable(cues[0]);
      SplitAllArePrintable(cues[1..]);
    }
  }

  lemma {:induction false} JoinedTextIsTrimmed(group: Group)
    requires group != [] && AllPrintable(group)
    ensures JoinedText(group) != "" && IsTrimmed(JoinedText(group))
  {
    if |group| > 1 {
      JoinedTextIsTrimmed(group[..|group| - 1]);
      assert Printable(group[|group| - 1]);
    } else {
      assert Printable(group[0]);
    }
  }

  lemma {:induction false} JoinedArePrintable(groups: seq<Group>)
    requires NoneEmpty(groups) && AllPrintable(Flat(groups))
    ensures AllPrintable(JoinedAll(groups))
  {
    if groups != [] {
      var first, rest := groups[0], groups[1..];
      PrintableParts(first, Flat(rest));
      JoinedTextIsTrimmed(first);
      assert Printable(first[0]) && Printable(first[|first| - 1]);
      JoinedArePrintable(rest);
      assert JoinedAll(groups) == [Joined(first)] + JoinedAll(rest);
    }
  }

  lemma BuiltCuesArePrintable(segments: seq<Cue>)
    requires AllInRange(segments)
    ensures AllPrintable(BuildCues(segments))
  {
    TrimmedArePrintable(segments);
    var cues := SplitAll(Trimmed(segments));
    SplitAllArePrintable(Trimmed(segments));
    MergeGroupsCoverAll(cues);
    JoinedArePrintable(MergeGroups(cues));
  }

  /** The words of the blocks as they are read back. */
  function WordsRead(blocks: seq<string>): seq<string> {
    if blocks == [] then [] else
    var last := ReadBlock(blocks[|blocks| - 1]);
    WordsRead(blocks[..|blocks| - 1]) + if last.Some? then last.value.words else []
  }

  lemma {:induction false} WordsReadAre(blocks: seq<string>, cues: seq<Cue>)
    requires |blocks| == |cues|
    requires forall i | 0 <= i < |blocks| :: ReadBlock(blocks[i]).Some? && ReadBlock(blocks[i]).value.words == Words(cues[i].text)
    ensures WordsRead(blocks) == CueWords(cues)
  {
    if blocks == [] {
      assert Texts(cues) == [];
    } else {
      var front := cues[..|cues| - 1];
      WordsReadAre(blocks[..|blocks| - 1], front);
      WordsOfLastCue(cues);
    }
  }

  lemma WordsOfLastCue(cues: seq<Cue>)
    requires cues != []
    ensures CueWords(cues) == CueWords(cues[..|cues| - 1]) + Words(cues[|cues| - 1].text)
  {
    var front, last := cues[..|cues| - 1], cues[|cues| - 1];
    assert cues == front + [last];
    CueWordsConcat(front, [last]);
    WordsOfCue(last);
  }

  /** Numbered from 1, forward in time, and at least 800 ms each when there are several. */
  predicate MovesForward(blocks: seq<string>) {
    && (forall i | 0 <= i < |blocks| :: ReadBlock(blocks[i]).Some?)
    && (forall i | 0 <= i < |blocks| :: var entry := ReadBlock(blocks[i]).value;
          && entry.number == Decimal(i + 1) && entry.startMs <= entry.endMs
          && (|blocks| > 1 ==> entry.startMs + MIN_CUE_MS <= entry.endMs))
    && (forall i, j | 0 <= i < j < |blocks| :: ReadBlock(blocks[i]).value.endMs <= ReadBlock(blocks[j]).value.startMs)
  }

  lemma BlocksMoveForward(blocks: seq<string>, cues: seq<Cue>)
    requires |blocks| == |cues| && AllInRange(cues) && Ordered(cues)
    requires |cues| <= 1 || forall i | 0 <= i < |cues| :: cues[i].endMs - cues[i].startMs >= MIN_CUE_MS
    requires forall i | 0 <= i < |cues| ::
      ReadBlock(blocks[i]) == Some(Entry(Decimal(i + 1), cues[i].startMs, cues[i].endMs, Words(cues[i].text)))
    ensures MovesForward(blocks)
  {
  }

  /**
   * Exporting segments in time order and reading the file back: every block is well formed and numbered from 1, the
   * times move forward without overlap, and the words of the blocks are the words of the segments.
   */
  lemma ExportRoundTrip(segments: seq<Cue>)
    requires Ordered(segments) && AllInRange(segments)
    ensures AllPrintable(BuildCues(segments))
    ensures var blocks := SrtBlocks(ToSrt(BuildCues(segments)));
      MovesForward(blocks) && WordsRead(blocks) == CueWords(segments)
  {
    var cues := BuildCues(segments);
    BuiltCuesArePrintable(segments);
    CuesAreOrderedLongAndComplete(segments);
    SrtRoundTrip(cues);
    BlocksMoveForward(SrtBlocks(ToSrt(cues)), cues);
    WordsReadAre(SrtBlocks(ToSrt(cues)), cues);
  }

  /** The export check also wants every block to start before it ends. */
  predicate AllForward(blocks: seq<string>) {
    forall i | 0 <= i < |blocks| ::
      ReadBlock(blocks[i]).Some? && ReadBlock(blocks[i]).value.startMs < ReadBlock(blocks[i]).value.endMs
  }

  /** They all do, exactly when the first non-blank segment starts before the last one ends, or there is none. */
  lemma AllForwardIff(segments: seq<Cue>)
    requires Ordered(segments) && AllInRange(segments)
    ensures AllPrintable(BuildCues(segments))
    ensures var spoken := Trimmed(segments);
      AllForward(SrtBlocks(ToSrt(BuildCues(segments)))) <==> spoken == [] || Span(spoken).0 < Span(spoken).1
  {
    var cues := BuildCues(segments);
    BuiltCuesArePrintable(segments);
    CuesAreOrderedLongAndComplete(segments);
    CuesKeepSpan(segments);
    SrtRoundTrip(cues);
    ForwardBlocks(SrtBlocks(ToSrt(cues)), cues);
    ForwardCues(cues);
  }

  lemma ForwardBlocks(blocks: seq<string>, cues: seq<Cue>)
    requires |blocks| == |cues| && AllInRange(cues)
    requires forall i | 0 <= i < |cues| ::
      ReadBlock(blocks[i]) == Some(Entry(Decimal(i + 1), cues[i].startMs, cues[i].endMs, Words(cues[i].text)))
    ensures AllForward(blocks) <==> forall i | 0 <= i < |cues| :: cues[i].startMs < cues[i].endMs
  {
    if AllForward(blocks) {
      forall i | 0 <= i < |cues|
        ensures cues[i].startMs < cues[i].endMs
      {
        assert ReadBlock(blocks[i]).value.startMs < ReadBlock(blocks[i]).value.endMs;
      }
    }
  }

  lemma ForwardCues(cues: seq<Cue>)
    requires Ordered(cues) && (|cues| <= 1 || forall i | 0 <= i < |cues| :: cues[i].endMs - cues[i].startMs >= MIN_CUE_MS)
    ensures (forall i | 0 <= i < |cues| :: cues[i].startMs < cues[i].endMs) <==> cues == [] || Span(cues).0 < Span(cues).1
  {
    if |cues| > 1 {
      assert cues[0].endMs <= cues[|cues| - 1].startMs;
    }
  }
}
