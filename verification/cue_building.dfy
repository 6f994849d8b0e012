/** What buildCues in apps/web/src/server/export/cues.ts makes of segments, told without its intermediate steps. */
module CueBuilding {
  import opened CueMerging
  import opened Cues
  import opened SentenceSplitter
  import opened Text

  function Lasts(cue: Cue): int { cue.endMs - cue.startMs }

  predicate IsBlank(segment: Cue) { Trim(segment.text) == "" }

  function WithTrimmedText(segment: Cue): Cue { Cue(segment.startMs, segment.endMs, Trim(segment.text)) }

  function Parts(segment: Cue): seq<string> { Sentences(Trim(segment.text)) }

  /** Longer than 7 s, and of more than one sentence. */
  predicate IsCut(segment: Cue) { Lasts(segment) > MAX_CUE_MS && |Parts(segment)| > 1 }

  /** A part whose share of the duration is 801 ms or more, so that rounding leaves it 800. */
  predicate HasShare(duration: int, parts: seq<string>, k: nat)
    requires k < |parts|
  {
    duration * |parts[k]| >= (MIN_CUE_MS + 1) * Chars(parts)
  }

  predicate AllHaveShare(duration: int, parts: seq<string>) {
    forall k: nat | k < |parts| :: HasShare(duration, parts, k)
  }

  /** The segment's last piece is not a short one. */
  predicate EndsLong(segment: Cue) {
    if IsCut(segment) then HasShare(Lasts(segment), Parts(segment), |Parts(segment)| - 1)
    else Lasts(segment) >= MIN_CUE_MS
  }

  /** None of the segment's pieces is a short one. */
  predicate StandsAlone(segment: Cue) {
    if IsCut(segment) then AllHaveShare(Lasts(segment), Parts(segment)) else Lasts(segment) >= MIN_CUE_MS
  }

  predicate AllLong(cues: seq<Cue>) { forall i | 0 <= i < |cues| :: Lasts(cues[i]) >= MIN_CUE_MS }

  // ------------------------------------------------------------- the pieces of a segment

  /**
   * A blank segment has no pieces and one that is not cut is its own piece. The pieces of a cut segment are its
   * sentences; they follow each other without a gap from its start to its end, and each cut in between is the
   * proportional share of the characters before it, to the nearest millisecond.
   */
  predicate ArePieces(segment: Cue, pieces: seq<Cue>) {
    var cue := WithTrimmedText(segment);
    if IsBlank(segment) then pieces == []
    else if !IsCut(segment) then pieces == [cue]
    else Texts(pieces) == Parts(segment) && Tiles(cue, pieces) && CutsAreShares(cue, Parts(segment), pieces)
  }

  predicate CutsAreShares(cue: Cue, parts: seq<string>, pieces: seq<Cue>)
    requires |pieces| == |parts|
  {
    forall k: nat | 0 < k < |pieces| :: CutIsShare(cue, parts, k, pieces[k].startMs)
  }

  predicate CutIsShare(cue: Cue, parts: seq<string>, k: nat, cut: int)
    requires k < |parts|
  {
    IsNearestShare(cut - cue.startMs, Lasts(cue), Chars(parts[..k]), Chars(parts))
  }

  function PiecesOf(segment: Cue): seq<Cue> {
    if IsBlank(segment) then [] else SplitLong(WithTrimmedText(segment))
  }

  lemma PiecesArePieces(segment: Cue)
    ensures ArePieces(segment, PiecesOf(segment))
  {
    if !IsBlank(segment) {
      if IsCut(segment) {
        CutIntoPieces(segment, WithTrimmedText(segment));
      } else {
        KeptWhole(WithTrimmedText(segment));
      }
    }
  }

  lemma KeptWhole(cue: Cue)
    requires Lasts(cue) <= MAX_CUE_MS || |Sentences(cue.text)| <= 1
    ensures SplitLong(cue) == [cue]
  {
  }

  lemma CutAtSentences(cue: Cue)
    requires Lasts(cue) > MAX_CUE_MS && |Sentences(cue.text)| > 1
    ensures Chars(Sentences(cue.text)) > 0 && SplitLong(cue) == PartCues(cue, Sentences(cue.text), |Sentences(cue.text)|)
  {
    SentencesHaveChars(cue.text);
  }

  lemma {:induction false} CutIntoPieces(segment: Cue, cue: Cue)
    requires cue == WithTrimmedText(segment) && IsCut(segment)
    ensures var pieces := SplitLong(cue);
      Texts(pieces) == Parts(segment) && Tiles(cue, pieces) && CutsAreShares(cue, Parts(segment), pieces)
  {
    CutAtSentences(cue);
    PartTexts(cue, Parts(segment));
    PartsTile(cue, Parts(segment));
    SharesOfParts(cue, Parts(segment));
  }

  lemma {:induction false} SharesOfParts(cue: Cue, parts: seq<string>)
    requires Chars(parts) > 0 && cue.startMs <= cue.endMs
    ensures CutsAreShares(cue, parts, PartCues(cue, parts, |parts|))
  {
    forall k: nat | 0 < k < |parts|
      ensures CutIsShare(cue, parts, k, Border(cue, parts, k))
    {
      BorderIsNearest(cue, parts, k);
    }
  }

  lemma {:induction false} TrimmedFirst(segments: seq<Cue>)
    requires segments != []
    ensures Trimmed(segments) == OneTrimmed(segments[0]) + Trimmed(segments[1..])
  {
  }

  function OneTrimmed(segment: Cue): seq<Cue> { if IsBlank(segment) then [] else [WithTrimmedText(segment)] }

  function EachPieces(segments: seq<Cue>): (lists: seq<seq<Cue>>)
    ensures |lists| == |segments|
  {
    if segments == [] then [] else [PiecesOf(segments[0])] + EachPieces(segments[1..])
  }

  lemma {:induction false} PiecesAt(segments: seq<Cue>, i: nat)
    requires i < |segments|
    ensures ArePieces(segments[i], EachPieces(segments)[i])
  {
    if i == 0 {
      PiecesArePieces(segments[0]);
    } else {
      PiecesAt(segments[1..], i - 1);
    }
  }

  lemma {:induction false} FlatInFront(group: Group, groups: seq<Group>)
    ensures Flat([group] + groups) == group + Flat(groups)
  {
    assert ([group] + groups)[1..] == groups;
  }

  lemma {:induction false} PiecesOfAll(segments: seq<Cue>)
    ensures SplitAll(Trimmed(segments)) == Flat(EachPieces(segments))
  {
    if segments != [] {
      PiecesOfAll(segments[1..]);
      FlatInFront(PiecesOf(segments[0]), EachPieces(segments[1..]));
      TrimmedFirst(segments);
      SplitAllConcat(OneTrimmed(segments[0]), Trimmed(segments[1..]));
      SplitOne(segments[0]);
    }
  }

  lemma {:induction false} SplitOne(segment: Cue)
    ensures SplitAll(OneTrimmed(segment)) == PiecesOf(segment)
  {
    if !IsBlank(segment) {
      SplitAllOfOne(WithTrimmedText(segment));
    }
  }

  lemma {:induction false} SplitAllOfOne(cue: Cue)
    ensures SplitAll([cue]) == SplitLong(cue)
  {
    assert [cue][1..] == [];
    assert SplitAll([]) == [];
  }

  lemma {:induction false} SplitAllConcat(a: seq<Cue>, b: seq<Cue>)
    ensures SplitAll(a + b) == SplitAll(a) + SplitAll(b)
  {
    if a == [] {
      assert a + b == b;
    } else {
      assert (a + b)[1..] == a[1..] + b;
      SplitAllConcat(a[1..], b);
    }
  }

  // ------------------------------------------------------------- which pieces become one cue

  /** The first cue that makes the group 800 ms long is its last. */
  predicate ClosedAtOnce(group: Group)
    requires group != []
  {
    Minimal(group) && Duration(group) >= MIN_CUE_MS
  }

  /** No cue makes the group 800 ms long. */
  predicate StaysShort(group: Group)
    requires group != []
  {
    Minimal(group) && Duration(group) < MIN_CUE_MS
  }

  /** A group closed behind its first k cues, and the rest that fell short. */
  predicate TookRest(group: Group, k: nat)
    requires 0 < k < |group|
  {
    ClosedAtOnce(group[..k]) && StaysShort(group[k..])
  }

  /** Consecutive cues, grouped by the rules: a group is closed at once, and what falls short at the end joins the last. */
  predicate IsGrouping(cues: seq<Cue>, groups: seq<Group>) {
    && NoneEmpty(groups) && Flat(groups) == cues
    && (forall i | 0 <= i < |groups| - 1 :: ClosedAtOnce(groups[i]))
    && (groups != [] ==> EndsWell(groups, groups[|groups| - 1]))
  }

  predicate EndsWell(groups: seq<Group>, last: Group)
    requires last != []
  {
    || ClosedAtOnce(last)
    || (|groups| == 1 && StaysShort(last))
    || exists k: nat | 0 < k < |last| :: TookRest(last, k)
  }

  lemma {:induction false} MergeGroupsAreGrouping(cues: seq<Cue>)
    ensures IsGrouping(cues, MergeGroups(cues))
  {
    var raw := Groups(cues, 0);
    GroupsAreMinimal(cues, 0);
    MergeGroupsCoverAll(cues);
    SettledEndsWell(raw);
  }

  lemma {:induction false} SettledEndsWell(raw: seq<Group>)
    requires NoneEmpty(raw) && forall i | 0 <= i < |raw| :: Minimal(raw[i])
    requires forall i | 0 <= i < |raw| - 1 :: Duration(raw[i]) >= MIN_CUE_MS
    ensures var groups := Settled(raw);
      && (forall i | 0 <= i < |groups| - 1 :: ClosedAtOnce(groups[i]))
      && (groups != [] ==> EndsWell(groups, groups[|groups| - 1]))
  {
    var n := |raw|;
    if n >= 2 && Duration(raw[n - 1]) < MIN_CUE_MS {
      var x, y := raw[n - 2], raw[n - 1];
      assert (x + y)[..|x|] == x;
      assert (x + y)[|x|..] == y;
      assert TookRest(x + y, |x|);
    }
  }

  /** The rules leave no choice. */
  lemma {:induction false} GroupingIsUnique(cues: seq<Cue>, groups: seq<Group>)
    requires IsGrouping(cues, groups)
    ensures groups == MergeGroups(cues)
  {
    assert cues[0..] == cues;
    if groups == [] || ClosedAtOnce(groups[|groups| - 1]) || (|groups| == 1 && StaysShort(groups[0])) {
      RawIsGroups(cues, 0, groups);
    } else {
      RestCutOff(cues, groups);
    }
  }

  lemma {:induction false} RestCutOff(cues: seq<Cue>, groups: seq<Group>)
    requires IsGrouping(cues, groups) && groups != [] && !ClosedAtOnce(groups[|groups| - 1])
    requires |groups| != 1 || !StaysShort(groups[0])
    ensures groups == MergeGroups(cues)
  {
    var n := |groups| - 1;
    var front, last := groups[..n], groups[n];
    var k: nat :| 0 < k < |last| && TookRest(last, k);
    var raw := front + ([last[..k]] + [last[k..]]);
    assert groups == front + [last];
    assert last[..k] + last[k..] == last;
    FlatConcat(front, [last]);
    FlatConcat(front, [last[..k]] + [last[k..]]);
    FlatConcat([last[..k]], [last[k..]]);
    FlatOfOne(last);
    FlatOfOne(last[..k]);
    FlatOfOne(last[k..]);
    assert cues[0..] == cues;
    RawIsGroups(cues, 0, raw);
  }

  /** Groups closed at once, and perhaps one at the end that fell short. */
  predicate IsRaw(raw: seq<Group>) {
    && NoneEmpty(raw) && (forall i | 0 <= i < |raw| - 1 :: ClosedAtOnce(raw[i]))
    && (raw != [] ==> ClosedAtOnce(raw[|raw| - 1]) || StaysShort(raw[|raw| - 1]))
  }

  lemma {:induction false} RawTail(raw: seq<Group>)
    requires IsRaw(raw) && raw != []
    ensures IsRaw(raw[1..]) && raw == [raw[0]] + raw[1..]
    ensures ClosedAtOnce(raw[0]) || (raw[1..] == [] && StaysShort(raw[0]))
  {
  }

  lemma {:induction false} RawIsGroups(cues: seq<Cue>, from: nat, raw: seq<Group>)
    requires from <= |cues| && IsRaw(raw) && Flat(raw) == cues[from..]
    ensures raw == Groups(cues, from)
    decreases |raw|
  {
    if raw != [] {
      RawTail(raw);
      var first, rest := raw[0], raw[1..];
      var end := from + |first|;
      FirstIsSlice(cues, from, first, Flat(rest));
      if ClosedAtOnce(first) {
        FirstIsClosed(cues, from, end, first);
        RawIsGroups(cues, end, rest);
      } else {
        LastIsLeft(cues, from, first);
      }
    }
  }

  lemma {:induction false} LastIsLeft(cues: seq<Cue>, from: nat, group: Group)
    requires from < |cues| && group == cues[from..] && StaysShort(group)
    ensures Groups(cues, from) == [group]
  {
    assert group == cues[from..from + |group|];
    PrefixesOfGroup(cues, from, group);
    LastGroup(cues, from);
  }

  lemma FirstIsSlice(cues: seq<Cue>, from: nat, first: Group, tail: seq<Cue>)
    requires from <= |cues| && first + tail == cues[from..]
    ensures from + |first| <= |cues| && first == cues[from..from + |first|] && tail == cues[from + |first|..]
    ensures tail == [] ==> first == cues[from..] && |cues| == from + |first|
  {
    var all := cues[from..];
    assert all == first + tail;
    assert first == all[..|first|] && tail == all[|first|..];
  }

  lemma {:induction false} FirstIsClosed(cues: seq<Cue>, from: nat, end: nat, first: Group)
    requires from < end <= |cues| && first == cues[from..end] && ClosedAtOnce(first)
    ensures Groups(cues, from) == [first] + Groups(cues, end)
  {
    PrefixesOfGroup(cues, from, first);
    GroupEnds(cues, from, end - 1);
  }

  lemma {:induction false} PrefixesOfGroup(cues: seq<Cue>, from: nat, group: Group)
    requires group != [] && Minimal(group) && from + |group| <= |cues| && group == cues[from..from + |group|]
    ensures forall k | from <= k < from + |group| - 1 :: !LongEnough(cues, from, k)
    ensures LongEnough(cues, from, from + |group| - 1) <==> Duration(group) >= MIN_CUE_MS
  {
    forall k | from <= k < from + |group| - 1
      ensures !LongEnough(cues, from, k)
    {
      assert Duration(group[..k - from + 1]) < MIN_CUE_MS;
    }
  }

  // ------------------------------------------------------------- building cues

  ghost predicate AreBuiltFrom(segments: seq<Cue>, lists: seq<seq<Cue>>, groups: seq<Group>, cues: seq<Cue>) {
    && |lists| == |segments| && (forall i | 0 <= i < |segments| :: ArePieces(segments[i], lists[i]))
    && IsGrouping(Flat(lists), groups) && cues == JoinedAll(groups)
  }

  /** Whatever the segments, their cues are the pieces of all of them in order, grouped by the rules and each group joined. */
  lemma {:induction false} BuiltFromPieces(segments: seq<Cue>)
    ensures exists lists, groups :: AreBuiltFrom(segments, lists, groups, BuildCues(segments))
  {
    var lists := EachPieces(segments);
    forall i | 0 <= i < |segments|
      ensures ArePieces(segments[i], lists[i])
    {
      PiecesAt(segments, i);
    }
    PiecesOfAll(segments);
    MergeGroupsAreGrouping(Flat(lists));
    assert AreBuiltFrom(segments, lists, MergeGroups(Flat(lists)), BuildCues(segments));
  }

  // ------------------------------------------------------------- pieces that are long enough

  lemma {:induction false} PieceIsLong(cue: Cue, parts: seq<string>, k: nat)
    requires k < |parts| && Chars(parts) > 0 && cue.startMs <= cue.endMs
    requires HasShare(Lasts(cue), parts, k)
    ensures Lasts(PartCue(cue, parts, k)) >= MIN_CUE_MS
  {
    BorderIsNear(cue, parts, k);
    BorderIsNear(cue, parts, k + 1);
    CharsOfOneMore(parts, k);
    BordersApart(Chars(parts), Lasts(cue), Chars(parts[..k]), |parts[k]|,
                 Border(cue, parts, k) - cue.startMs, Border(cue, parts, k + 1) - cue.startMs);
  }

  /** At most half a unit off the share, in units of the whole. */
  predicate IsNear(total: nat, cut: int, duration: int, before: nat) {
    0 - total <= 2 * (total * cut - duration * before) <= total
  }

  lemma {:induction false} BorderIsNear(cue: Cue, parts: seq<string>, k: nat)
    requires k <= |parts| && Chars(parts) > 0 && cue.startMs <= cue.endMs
    ensures IsNear(Chars(parts), Border(cue, parts, k) - cue.startMs, Lasts(cue), Chars(parts[..k]))
  {
    if k == 0 {
      assert parts[..0] == [];
      StartIsNear(Chars(parts), Lasts(cue));
    } else if k == |parts| {
      assert parts[..k] == parts;
      EndIsNear(Chars(parts), Lasts(cue));
    } else {
      BorderIsNearest(cue, parts, k);
      NearestIsNear(Chars(parts), Border(cue, parts, k) - cue.startMs, Lasts(cue), Chars(parts[..k]));
    }
  }

  lemma StartIsNear(total: nat, duration: int)
    ensures IsNear(total, 0, duration, 0)
  {
  }

  lemma EndIsNear(total: nat, duration: int)
    ensures IsNear(total, duration, duration, total)
  {
    assert total * duration == duration * total;
  }

  lemma NearestIsNear(total: nat, cut: int, duration: int, before: nat)
    requires IsNearestShare(cut, duration, before, total)
    ensures IsNear(total, cut, duration, before)
  {
    assert cut * total == total * cut;
  }

  lemma BordersApart(total: nat, duration: int, before: nat, chars: nat, cut: int, next: int)
    requires total > 0 && duration * chars >= (MIN_CUE_MS + 1) * total
    requires IsNear(total, cut, duration, before) && IsNear(total, next, duration, before + chars)
    ensures next - cut >= MIN_CUE_MS
  {
    assert duration * (before + chars) == duration * before + duration * chars;
    assert total * next - total * cut >= MIN_CUE_MS * total;
    if next - cut < MIN_CUE_MS {
      TimesLess(total, next - cut, MIN_CUE_MS);
    }
  }

  lemma TimesLess(a: nat, x: int, y: int)
    requires a > 0 && x < y
    ensures a * x < a * y
  {
    var gap := y - x;
    assert a * (x + gap) == a * x + a * gap;
  }

  lemma {:induction false} PiecesAreLong(segment: Cue)
    requires IsBlank(segment) || StandsAlone(segment)
    ensures AllLong(PiecesOf(segment))
  {
    var cue := WithTrimmedText(segment);
    if !IsBlank(segment) {
      if IsCut(segment) {
        CutPiecesAreLong(segment, cue);
      } else {
        KeptWhole(cue);
      }
    }
  }

  lemma {:induction false} CutPiecesAreLong(segment: Cue, cue: Cue)
    requires cue == WithTrimmedText(segment) && IsCut(segment) && StandsAlone(segment)
    ensures AllLong(SplitLong(cue))
  {
    CutAtSentences(cue);
    PartsAreLong(cue, Parts(segment));
  }

  lemma {:induction false} PartsAreLong(cue: Cue, parts: seq<string>)
    requires Chars(parts) > 0 && cue.startMs <= cue.endMs
    requires AllHaveShare(Lasts(cue), parts)
    ensures AllLong(PartCues(cue, parts, |parts|))
  {
    forall k | 0 <= k < |parts|
      ensures Lasts(PartCue(cue, parts, k)) >= MIN_CUE_MS
    {
      PieceIsLong(cue, parts, k);
    }
  }

  lemma {:induction false} LastPieceIsLong(segment: Cue)
    requires !IsBlank(segment) && EndsLong(segment)
    ensures var pieces := PiecesOf(segment); pieces != [] && Lasts(pieces[|pieces| - 1]) >= MIN_CUE_MS
  {
    var cue, n := WithTrimmedText(segment), |Parts(segment)| - 1;
    if IsCut(segment) {
      CutAtSentences(cue);
      PieceIsLong(cue, Parts(segment), n);
    } else {
      KeptWhole(cue);
    }
  }

  function OneByOne(cues: seq<Cue>): seq<Group> { seq(|cues|, i requires 0 <= i < |cues| => [cues[i]]) }

  lemma {:induction false} FlatOneByOne(cues: seq<Cue>)
    ensures Flat(OneByOne(cues)) == cues
  {
    if cues != [] {
      FlatOneByOne(cues[1..]);
      assert OneByOne(cues)[1..] == OneByOne(cues[1..]);
    }
  }

  /** Long cues are not merged, and neither is a cue on its own. */
  lemma {:induction false} NothingToMerge(cues: seq<Cue>)
    requires AllLong(cues) || |cues| == 1
    ensures Merged(cues) == cues
  {
    FlatOneByOne(cues);
    GroupingIsUnique(cues, OneByOne(cues));
  }

  // ------------------------------------------------------------- segments on their own, one after the other, appended

  lemma {:induction false} CuesOfOne(segment: Cue)
    ensures BuildCues([segment]) == Merged(PiecesOf(segment))
  {
    PiecesOfOne(segment);
  }

  /** The cues of one segment are its pieces, if it is not cut into pieces that are too short. */
  lemma {:induction false} OneSegment(segment: Cue)
    requires !IsBlank(segment) && IsCut(segment) ==> StandsAlone(segment)
    ensures ArePieces(segment, BuildCues([segment]))
  {
    CuesOfOne(segment);
    PiecesArePieces(segment);
    if !IsBlank(segment) && IsCut(segment) {
      PiecesAreLong(segment);
    }
    NothingToMerge(PiecesOf(segment));
  }

  function EachOnItsOwn(segments: seq<Cue>): seq<Cue> {
    if segments == [] then [] else BuildCues([segments[0]]) + EachOnItsOwn(segments[1..])
  }

  lemma {:induction false} LongPieces(segments: seq<Cue>)
    requires forall i | 0 <= i < |segments| :: IsBlank(segments[i]) || StandsAlone(segments[i])
    ensures AllLong(SplitAll(Trimmed(segments))) && SplitAll(Trimmed(segments)) == EachOnItsOwn(segments)
  {
    if segments != [] {
      LongPieces(segments[1..]);
      PiecesAreLong(segments[0]);
      CuesOfOne(segments[0]);
      NothingToMerge(PiecesOf(segments[0]));
      TrimmedFirst(segments);
      SplitAllConcat(OneTrimmed(segments[0]), Trimmed(segments[1..]));
      SplitOne(segments[0]);
    }
  }

  /** Segments without short pieces do not touch each other's cues. */
  lemma {:induction false} NoneTouchesAnother(segments: seq<Cue>)
    requires forall i | 0 <= i < |segments| :: IsBlank(segments[i]) || StandsAlone(segments[i])
    ensures BuildCues(segments) == EachOnItsOwn(segments)
  {
    LongPieces(segments);
    NothingToMerge(SplitAll(Trimmed(segments)));
  }

  predicate AllClosed(groups: seq<Group>)
    requires NoneEmpty(groups)
  {
    forall i | 0 <= i < |groups| :: ClosedAtOnce(groups[i])
  }

  lemma {:induction false} GroupingConcat(a: seq<Cue>, ga: seq<Group>, b: seq<Cue>, gb: seq<Group>)
    requires IsGrouping(a, ga) && AllClosed(ga) && IsGrouping(b, gb)
    requires |gb| != 1 || !StaysShort(gb[0])
    ensures IsGrouping(a + b, ga + gb)
  {
    FlatConcat(ga, gb);
  }

  lemma {:induction false} LongCuesClose(cues: seq<Cue>, groups: seq<Group>)
    requires IsGrouping(cues, groups) && cues != [] && Duration(cues) >= MIN_CUE_MS
    ensures |groups| != 1 || !StaysShort(groups[0])
  {
    if |groups| == 1 {
      assert groups == [groups[0]];
      FlatOfOne(groups[0]);
    }
  }

  lemma {:induction false} MergedBehind(a: seq<Cue>, ga: seq<Group>, b: seq<Cue>)
    requires NoneEmpty(ga) && AllClosed(ga) && Flat(ga) == a && b != [] && Duration(b) >= MIN_CUE_MS
    ensures MergeGroups(a + b) == ga + MergeGroups(b)
  {
    MergeGroupsAreGrouping(b);
    LongCuesClose(b, MergeGroups(b));
    GroupingConcat(a, ga, b, MergeGroups(b));
    GroupingIsUnique(a + b, ga + MergeGroups(b));
  }

  /** Cues without a group that fell short, and cues long enough to make a group of their own, are merged separately. */
  lemma {:induction false} MergedConcat(a: seq<Cue>, b: seq<Cue>)
    requires AllClosed(MergeGroups(a)) && b != [] && Duration(b) >= MIN_CUE_MS
    ensures Merged(a + b) == Merged(a) + Merged(b)
  {
    MergeGroupsCoverAll(a);
    MergedBehind(a, MergeGroups(a), b);
    JoinedConcat(MergeGroups(a), MergeGroups(b));
  }

  lemma {:induction false} JoinedConcat(a: seq<Group>, b: seq<Group>)
    requires NoneEmpty(a) && NoneEmpty(b)
    ensures JoinedAll(a + b) == JoinedAll(a) + JoinedAll(b)
  {
  }

  lemma {:induction false} JoinedTextGrows(group: Group, k: nat)
    requires 0 < k < |group|
    ensures |JoinedText(group[..k])| < |JoinedText(group)|
  {
    assert group == group[..k] + group[k..];
    JoinedBoth(group[..k], group[k..]);
  }

  /** What fell short at the end is taken back from the last cue when more follows. */
  lemma {:induction false} ShortRestMovesOn(a: seq<Cue>, b: seq<Cue>)
    requires !AllClosed(MergeGroups(a)) && Ordered(a + b) && b != [] && Duration(b) >= MIN_CUE_MS
    ensures Merged(a + b) != Merged(a) + Merged(b)
  {
    var ga := MergeGroups(a);
    MergeGroupsAreGrouping(a);
    var n := |ga| - 1;
    assert ga == ga[..n] + [ga[n]];
    FlatConcat(ga[..n], [ga[n]]);
    FlatOfOne(ga[n]);
    if n == 0 && StaysShort(ga[0]) {
      assert a == ga[0];
      AllShortMovesOn(a, b);
    } else {
      var k: nat :| 0 < k < |ga[n]| && TookRest(ga[n], k);
      assert ga[n] == ga[n][..k] + ga[n][k..];
      RestMovesOn(a, b, ga[..n], ga[n], k);
    }
  }

  lemma {:induction false} RestMovesOn(a: seq<Cue>, b: seq<Cue>, front: seq<Group>, last: Group, k: nat)
    requires NoneEmpty(front) && AllClosed(front) && 0 < k < |last| && TookRest(last, k)
    requires Flat(front) + (last[..k] + last[k..]) == a
    requires MergeGroups(a) == front + [last]
    requires Ordered(a + b) && b != [] && Duration(b) >= MIN_CUE_MS
    ensures Merged(a + b) != Merged(a) + Merged(b)
  {
    RestRegrouped(a, b, front, last[..k], last[k..]);
    JoinedTextGrows(last, k);
    DifferAt(MergeGroups(a + b), front + [last], |front|, Merged(b));
  }

  lemma {:induction false} RestRegrouped(a: seq<Cue>, b: seq<Cue>, front: seq<Group>, head: Group, rest: Group)
    requires NoneEmpty(front + [head]) && AllClosed(front + [head]) && rest != [] && Flat(front) + (head + rest) == a
    requires Ordered(a + b) && b != [] && Duration(b) >= MIN_CUE_MS
    ensures MergeGroups(a + b) == front + [head] + MergeGroups(rest + b)
  {
    FlatOfOneMore(front, head);
    Reassociate(Flat(front), head, rest, b);
    OrderedParts(Flat(front + [head]), rest + b);
    LongerWithRest(rest, b);
    MergedBehind(Flat(front + [head]), front + [head], rest + b);
  }

  lemma {:induction false} FlatOfOneMore(front: seq<Group>, group: Group)
    ensures Flat(front + [group]) == Flat(front) + group
  {
    FlatConcat(front, [group]);
    FlatOfOne(group);
  }

  lemma Reassociate(front: seq<Cue>, head: seq<Cue>, rest: seq<Cue>, b: seq<Cue>)
    ensures front + (head + rest) + b == (front + head) + (rest + b)
  {
  }

  lemma {:induction false} DifferAt(groups: seq<Group>, others: seq<Group>, i: nat, more: seq<Cue>)
    requires NoneEmpty(groups) && NoneEmpty(others) && i < |groups| && i < |others|
    requires JoinedText(groups[i]) != JoinedText(others[i])
    ensures JoinedAll(groups) != JoinedAll(others) + more
  {
    assert JoinedAll(groups)[i].text == JoinedText(groups[i]);
    assert (JoinedAll(others) + more)[i].text == JoinedText(others[i]);
  }

  lemma LongerWithRest(rest: seq<Cue>, b: seq<Cue>)
    requires rest != [] && b != [] && Ordered(rest + b)
    ensures Duration(rest + b) >= Duration(b)
  {
    OrderedParts(rest, b);
  }

  lemma {:induction false} AllShortMovesOn(a: seq<Cue>, b: seq<Cue>)
    requires a != [] && StaysShort(a) && MergeGroups(a) == [a]
    requires Ordered(a + b) && b != [] && Duration(b) >= MIN_CUE_MS
    ensures Merged(a + b) != Merged(a) + Merged(b)
  {
    var all, groups := a + b, MergeGroups(a + b);
    MergeGroupsAreGrouping(all);
    LongerWithRest(a, b);
    LongCuesClose(all, groups);
    FirstReachesBeyond(a, b, groups);
    JoinedTextGrows(groups[0], |a|);
    DifferAt(groups, [a], 0, Merged(b));
  }

  lemma {:induction false} FirstReachesBeyond(a: seq<Cue>, b: seq<Cue>, groups: seq<Group>)
    requires a != [] && StaysShort(a) && IsGrouping(a + b, groups) && (|groups| != 1 || !StaysShort(groups[0]))
    ensures groups != [] && |groups[0]| > |a| && groups[0][..|a|] == a
  {
    var first := groups[0];
    assert a + b == first + Flat(groups[1..]);
    if ClosedAtOnce(first) {
      ClosedBeyond(a, b, first);
    } else {
      var k: nat :| 0 < k < |first| && TookRest(first, k);
      ClosedBeyond(a, b, first[..k]);
    }
  }

  lemma {:induction false} ClosedBeyond(a: seq<Cue>, b: seq<Cue>, first: Group)
    requires a != [] && StaysShort(a) && first != [] && ClosedAtOnce(first) && first <= a + b
    ensures |first| > |a| && first[..|a|] == a
  {
    ShortUpTo(a, b, first);
    assert (a + b)[..|first|] == first;
  }

  lemma {:induction false} ShortUpTo(a: seq<Cue>, b: seq<Cue>, first: Group)
    requires a != [] && StaysShort(a) && first != [] && first <= a + b
    ensures |first| <= |a| ==> Duration(first) < MIN_CUE_MS
  {
    if |first| == |a| {
      assert first == a;
    } else if |first| < |a| {
      assert first == a[..|first|];
    }
  }

  function Pieces(segments: seq<Cue>): seq<Cue> { SplitAll(Trimmed(segments)) }

  lemma {:induction false} TrimmedConcat(a: seq<Cue>, b: seq<Cue>)
    ensures Trimmed(a + b) == Trimmed(a) + Trimmed(b)
  {
    if a == [] {
      assert a + b == b;
    } else {
      TrimmedConcat(a[1..], b);
      TrimmedFirst(a);
      TrimmedInFront(a[0], a[1..] + b);
      FirstOfBoth(a, b);
      Regroup(OneTrimmed(a[0]), Trimmed(a[1..]), Trimmed(b));
    }
  }

  lemma FirstOfBoth(a: seq<Cue>, b: seq<Cue>)
    requires a != []
    ensures a + b == [a[0]] + (a[1..] + b)
  {
  }

  lemma {:induction false} TrimmedInFront(segment: Cue, rest: seq<Cue>)
    ensures Trimmed([segment] + rest) == OneTrimmed(segment) + Trimmed(rest)
  {
    TrimmedFirst([segment] + rest);
    assert ([segment] + rest)[1..] == rest;
  }

  lemma {:induction false} PiecesConcat(a: seq<Cue>, b: seq<Cue>)
    ensures Pieces(a + b) == Pieces(a) + Pieces(b)
  {
    TrimmedConcat(a, b);
    SplitAllConcat(Trimmed(a), Trimmed(b));
  }

  lemma {:induction false} PiecesAreOrdered(segments: seq<Cue>)
    requires Ordered(segments)
    ensures Ordered(Trimmed(segments)) && Ordered(Pieces(segments)) && SameSpan(Pieces(segments), Trimmed(segments))
  {
    var t := if segments == [] then 0 else segments[0].startMs;
    FirstIsEarliest(segments);
    TrimmedKeepsOrderAndWords(segments, t);
    SplitAllKeepsOrderAndWords(Trimmed(segments), t);
    SplitAllKeepsSpan(Trimmed(segments));
  }

  lemma {:induction false} LastsAtLeast(segments: seq<Cue>, i: nat)
    requires Ordered(segments) && i < |segments| && !IsBlank(segments[i])
    ensures Pieces(segments) != [] && Duration(Pieces(segments)) >= Lasts(segments[i])
  {
    PiecesAreOrdered(segments);
    TrimmedAt(segments, i);
    SpanOfPart(Trimmed(segments[..i]), WithTrimmedText(segments[i]), Trimmed(segments[i + 1..]));
  }

  lemma {:induction false} TrimmedAt(segments: seq<Cue>, i: nat)
    requires i < |segments| && !IsBlank(segments[i])
    ensures Trimmed(segments) ==
            Trimmed(segments[..i]) + ([WithTrimmedText(segments[i])] + Trimmed(segments[i + 1..]))
  {
    assert segments == segments[..i] + ([segments[i]] + segments[i + 1..]);
    TrimmedConcat(segments[..i], [segments[i]] + segments[i + 1..]);
    TrimmedInFront(segments[i], segments[i + 1..]);
  }

  lemma SpanOfPart(a: seq<Cue>, cue: Cue, b: seq<Cue>)
    requires Ordered(a + ([cue] + b))
    ensures Duration(a + ([cue] + b)) >= Lasts(cue)
  {
    var all, k := a + ([cue] + b), |a|;
    assert all[k] == cue;
    FirstIsEarliest(all);
    assert k < |all| - 1 ==> all[k].endMs <= all[|all| - 1].startMs;
  }

  /** No short pieces are left over at the end. */
  predicate NothingFellShort(segments: seq<Cue>) { AllClosed(MergeGroups(Pieces(segments))) }

  /**
   * What follows leaves the cues of the segments before it as they are exactly if none of their pieces fell short at
   * the end; of what follows, some segment that is not blank lasts 800 ms.
   */
  lemma {:induction false} AppendedIff(segments: seq<Cue>, behind: seq<Cue>, i: nat)
    requires Ordered(segments + behind) && i < |behind| && !IsBlank(behind[i]) && Lasts(behind[i]) >= MIN_CUE_MS
    ensures BuildCues(segments + behind) == BuildCues(segments) + BuildCues(behind) <==> NothingFellShort(segments)
  {
    OrderedParts(segments, behind);
    LastsAtLeast(behind, i);
    PiecesConcat(segments, behind);
    PiecesAreOrdered(segments + behind);
    if NothingFellShort(segments) {
      MergedConcat(Pieces(segments), Pieces(behind));
    } else {
      ShortRestMovesOn(Pieces(segments), Pieces(behind));
    }
  }

  /** Nothing falls short behind a segment whose last piece lasts 800 ms. */
  lemma {:induction false} NothingShortBehind(front: seq<Cue>, last: Cue)
    requires Ordered(front + [last]) && !IsBlank(last) && EndsLong(last)
    ensures NothingFellShort(front + [last])
  {
    LastPieceIsLong(last);
    NothingShortAfter(front, last, PiecesOf(last));
  }

  lemma {:induction false} NothingShortAfter(front: seq<Cue>, last: Cue, pieces: seq<Cue>)
    requires Ordered(front + [last]) && pieces == PiecesOf(last)
    requires pieces != [] && Lasts(pieces[|pieces| - 1]) >= MIN_CUE_MS
    ensures NothingFellShort(front + [last])
  {
    PiecesAreOrdered(front + [last]);
    PiecesConcat(front, [last]);
    PiecesOfOne(last);
    LongBehind(Pieces(front), pieces);
  }

  lemma {:induction false} LongBehind(a: seq<Cue>, b: seq<Cue>)
    requires Ordered(a + b) && b != [] && Lasts(b[|b| - 1]) >= MIN_CUE_MS
    ensures AllClosed(MergeGroups(a + b))
  {
    LastLongCloses(a + b);
  }

  lemma {:induction false} PiecesOfOne(segment: Cue)
    ensures Pieces([segment]) == PiecesOf(segment)
  {
    TrimmedFirst([segment]);
    assert Trimmed([]) == [];
    SplitOne(segment);
  }

  lemma {:induction false} LastLongCloses(cues: seq<Cue>)
    requires Ordered(cues) && cues != [] && Lasts(cues[|cues| - 1]) >= MIN_CUE_MS
    ensures AllClosed(MergeGroups(cues))
  {
    var groups := MergeGroups(cues);
    MergeGroupsAreGrouping(cues);
    LastGroupIsTail(groups);
    LongTail(Flat(groups[..|groups| - 1]), groups[|groups| - 1]);
  }

  lemma {:induction false} LastGroupIsTail(groups: seq<Group>)
    requires Flat(groups) != []
    ensures groups != [] && Flat(groups) == Flat(groups[..|groups| - 1]) + groups[|groups| - 1]
  {
    var n := |groups| - 1;
    assert groups == groups[..n] + [groups[n]];
    FlatOfOneMore(groups[..n], groups[n]);
  }

  lemma {:induction false} LongTail(front: seq<Cue>, last: Group)
    requires last != [] && Ordered(front + last) && Lasts(last[|last| - 1]) >= MIN_CUE_MS
    ensures Duration(last) >= MIN_CUE_MS && forall k: nat | 0 < k < |last| :: Duration(last[k..]) >= MIN_CUE_MS
  {
    OrderedParts(front, last);
    forall k: nat | k < |last|
      ensures Duration(last[k..]) >= MIN_CUE_MS
    {
      assert k < |last| - 1 ==> last[k].startMs <= last[k].endMs <= last[|last| - 1].startMs;
    }
    assert last[0..] == last;
  }

  /** Behind a segment that ends long, a further segment of 800 ms leaves all cues as they are and adds its own. */
  lemma {:induction false} SegmentAppended(front: seq<Cue>, last: Cue, next: Cue)
    requires Ordered(front + [last] + [next])
    requires !IsBlank(last) && EndsLong(last) && !IsBlank(next) && Lasts(next) >= MIN_CUE_MS
    ensures BuildCues(front + [last] + [next]) == BuildCues(front + [last]) + BuildCues([next])
  {
    OrderedParts(front + [last], [next]);
    NothingShortBehind(front, last);
    AppendedIff(front + [last], [next], 0);
  }

  /** That all cues so far last 800 ms is not enough: a short segment moves from the cue before to the one behind it. */
  lemma {:induction false} ShortSegmentMovesOn(x: string, y: string, z: string)
    requires Trim(x) == x != "" && Trim(y) == y != "" && Trim(z) == z != ""
    ensures BuildCues([Cue(0, 1000, x), Cue(1000, 1300, y)]) == [Cue(0, 1300, x + " " + y)]
    ensures BuildCues([Cue(0, 1000, x), Cue(1000, 1300, y), Cue(1300, 2300, z)]) ==
            [Cue(0, 1000, x), Cue(1000, 2300, y + " " + z)]
  {
    var a, b, c := Cue(0, 1000, x), Cue(1000, 1300, y), Cue(1300, 2300, z);
    WholePieces(a);
    WholePieces(b);
    WholePieces(c);
    PiecesConcat([a], [b]);
    PiecesConcat([a, b], [c]);
    assert [a] + [b] == [a, b] && [a, b] + [c] == [a, b, c];
    ShortJoinsLast(a, b);
    ShortJoinsNext(a, b, c);
    JoinedPair(a, b);
    JoinedPair(b, c);
  }

  lemma {:induction false} ShortJoinsLast(a: Cue, b: Cue)
    requires Lasts(a) >= MIN_CUE_MS > Lasts(b)
    ensures Merged([a, b]) == [Joined([a, b])]
  {
    assert [a, b][..1] == [a] && [a, b][1..] == [b];
    assert TookRest([a, b], 1);
    FlatOfOne([a, b]);
    GroupingIsUnique([a, b], [[a, b]]);
  }

  lemma {:induction false} ShortJoinsNext(a: Cue, b: Cue, c: Cue)
    requires Lasts(a) >= MIN_CUE_MS > Lasts(b) && c.endMs - b.startMs >= MIN_CUE_MS
    ensures Merged([a, b, c]) == [a, Joined([b, c])]
  {
    assert [b, c][..1] == [b];
    FlatConcat([[a]], [[b, c]]);
    FlatOfOne([a]);
    FlatOfOne([b, c]);
    assert [[a]] + [[b, c]] == [[a], [b, c]];
    GroupingIsUnique([a, b, c], [[a], [b, c]]);
  }

  lemma JoinedPair(a: Cue, b: Cue)
    ensures Joined([a, b]) == Cue(a.startMs, b.endMs, a.text + " " + b.text)
  {
    JoinedBoth([a], [b]);
    assert [a] + [b] == [a, b];
  }

  lemma {:induction false} WholePieces(segment: Cue)
    requires Trim(segment.text) == segment.text != "" && Lasts(segment) <= MAX_CUE_MS
    ensures Pieces([segment]) == [segment]
  {
    PiecesOfOne(segment);
    KeptWhole(segment);
  }
}
