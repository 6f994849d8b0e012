/** Merging short cues and building the cues of a transcript: apps/web/src/server/export/cues.ts. */
module CueMerging {
  import opened Cues
  import opened SentenceSplitter
  import opened Text

  /** Consecutive cues that become one. */
  type Group = seq<Cue>

  predicate NoneEmpty(groups: seq<Group>) { forall i | 0 <= i < |groups| :: groups[i] != [] }

  function Duration(group: Group): int
    requires group != []
  {
    group[|group| - 1].endMs - group[0].startMs
  }

  function JoinedText(group: Group): string
    requires group != []
  {
    var last := |group| - 1;
    if last == 0 then group[0].text else JoinedText(group[..last]) + " " + group[last].text
  }

  /** From the start of the first to the end of the last, texts separated by spaces. */
  function Joined(group: Group): Cue
    requires group != []
  {
    Cue(group[0].startMs, group[|group| - 1].endMs, JoinedText(group))
  }

  function JoinedAll(groups: seq<Group>): (cues: seq<Cue>)
    requires NoneEmpty(groups)
  {
    seq(|groups|, i requires 0 <= i < |groups| => Joined(groups[i]))
  }

  function Flat(groups: seq<Group>): seq<Cue> {
    if groups == [] then [] else groups[0] + Flat(groups[1..])
  }

  /** Cues from to last, both included, last long enough. */
  predicate LongEnough(cues: seq<Cue>, from: nat, last: nat)
    requires from <= last < |cues|
  {
    cues[last].endMs - cues[from].startMs >= MIN_CUE_MS
  }

  /** The last cue of the group that starts at from, given that it reaches to last: the first that makes it long enough. */
  function GroupLast(cues: seq<Cue>, from: nat, last: nat): (g: nat)
    requires from <= last < |cues|
    ensures last <= g < |cues| && (g == |cues| - 1 || LongEnough(cues, from, g))
    ensures forall k | last <= k < g :: !LongEnough(cues, from, k)
    decreases |cues| - last
  {
    if last == |cues| - 1 || LongEnough(cues, from, last) then last else GroupLast(cues, from, last + 1)
  }

  /** Shortest groups that last long enough, left to right; only the last may fall short. */
  function Groups(cues: seq<Cue>, from: nat): (groups: seq<Group>)
    requires from <= |cues|
    ensures NoneEmpty(groups) && (groups == [] <==> from == |cues|)
    ensures forall i | 0 <= i < |groups| - 1 :: Duration(groups[i]) >= MIN_CUE_MS
    decreases |cues| - from
  {
    if from == |cues| then [] else
    var end := GroupLast(cues, from, from) + 1;
    [cues[from..end]] + Groups(cues, end)
  }

  /** A last group that falls short joins the one before it. */
  function Settled(groups: seq<Group>): (settled: seq<Group>)
    requires NoneEmpty(groups)
    ensures NoneEmpty(settled)
  {
    var n := |groups|;
    if n < 2 || Duration(groups[n - 1]) >= MIN_CUE_MS then groups
    else groups[..n - 2] + [groups[n - 2] + groups[n - 1]]
  }

  function MergeGroups(cues: seq<Cue>): (groups: seq<Group>)
    ensures NoneEmpty(groups)
  {
    Settled(Groups(cues, 0))
  }

  function Merged(cues: seq<Cue>): seq<Cue> { JoinedAll(MergeGroups(cues)) }

  /** After i cues: the groups done are out, the cues from `from` on are the pending one. */
  ghost predicate Progress(cues: seq<Cue>, i: nat, from: nat, done: seq<Group>, out: seq<Cue>, pending: seq<Cue>) {
    && from <= i <= |cues| && NoneEmpty(done) && out == JoinedAll(done)
    && Groups(cues, 0) == done + Groups(cues, from)
    && (forall g | 0 <= g < |done| :: Duration(done[g]) >= MIN_CUE_MS)
    && (forall k | from <= k < i :: !LongEnough(cues, from, k))
    && pending == if from == i then [] else [Joined(cues[from..i])]
  }

  method MergeShortCues(cues: seq<Cue>) returns (out: seq<Cue>)
    ensures out == Merged(cues)
  {
    out := [];
    var pending: seq<Cue> := [];      // at most one
    ghost var done: seq<Group> := [];
    ghost var from := 0;
    for i := 0 to |cues|
      invariant Progress(cues, i, from, done, out, pending)
    {
      var cue := cues[i];
      var current := if pending != [] then Cue(pending[0].startMs, cue.endMs, pending[0].text + " " + cue.text) else cue;
      JoinedOneMore(cues, from, i);
      if current.endMs - current.startMs < MIN_CUE_MS {
        StillPending(cues, i, from, done, out, pending);
        pending := [current];
      } else {
        GroupDone(cues, i, from, done, out, pending);
        pending, out := [], out + [current];
        done, from := done + [cues[from..i + 1]], i + 1;
      }
    }
    if pending == [] {
      AllDone(cues, done, out);
    } else {
      LastPending(cues, from, done, out, pending);
      if |out| > 0 {
        var last := out[|out| - 1];
        out := out[|out| - 1 := Cue(last.startMs, pending[0].endMs, last.text + " " + pending[0].text)];
      } else {
        out := out + pending;
      }
    }
  }

  lemma StillPending(cues: seq<Cue>, i: nat, from: nat, done: seq<Group>, out: seq<Cue>, pending: seq<Cue>)
    requires i < |cues| && Progress(cues, i, from, done, out, pending) && !LongEnough(cues, from, i)
    ensures Progress(cues, i + 1, from, done, out, [Joined(cues[from..i + 1])])
  {
  }

  lemma LastPending(cues: seq<Cue>, from: nat, done: seq<Group>, out: seq<Cue>, pending: seq<Cue>)
    requires Progress(cues, |cues|, from, done, out, pending) && pending != []
    ensures Merged(cues) == if out == [] then pending
            else out[|out| - 1 := Cue(out[|out| - 1].startMs, pending[0].endMs, out[|out| - 1].text + " " + pending[0].text)]
  {
    LastGroup(cues, from);
    LastIsShort(done, cues[from..]);
  }

  lemma GroupDone(cues: seq<Cue>, i: nat, from: nat, done: seq<Group>, out: seq<Cue>, pending: seq<Cue>)
    requires i < |cues| && Progress(cues, i, from, done, out, pending) && LongEnough(cues, from, i)
    ensures var group := cues[from..i + 1];
      Progress(cues, i + 1, i + 1, done + [group], out + [Joined(group)], [])
  {
    GroupEnds(cues, from, i);
    Regroup(done, [cues[from..i + 1]], Groups(cues, i + 1));
  }

  lemma AllDone(cues: seq<Cue>, done: seq<Group>, out: seq<Cue>)
    requires Progress(cues, |cues|, |cues|, done, out, [])
    ensures out == Merged(cues)
  {
    assert Groups(cues, |cues|) == [];
    assert Groups(cues, 0) == done;
  }

  lemma LastIsShort(done: seq<Group>, tail: Group)
    requires NoneEmpty(done) && tail != [] && Duration(tail) < MIN_CUE_MS
    ensures var out, last := JoinedAll(done), Joined(tail);
      JoinedAll(Settled(done + [tail])) ==
      if done == [] then [last]
      else out[|out| - 1 := Cue(out[|out| - 1].startMs, last.endMs, out[|out| - 1].text + " " + last.text)]
  {
    if done != [] {
      JoinedBoth(done[|done| - 1], tail);
    }
  }

  lemma JoinedOneMore(cues: seq<Cue>, from: nat, i: nat)
    requires from <= i < |cues|
    ensures Joined(cues[from..i + 1]) ==
            if from == i then cues[i]
            else Cue(cues[from].startMs, cues[i].endMs, Joined(cues[from..i]).text + " " + cues[i].text)
  {
    var group := cues[from..i + 1];
    assert group[..|group| - 1] == cues[from..i];
  }

  lemma {:induction false} GroupEnds(cues: seq<Cue>, from: nat, last: nat)
    requires from <= last < |cues| && LongEnough(cues, from, last)
    requires forall k | from <= k < last :: !LongEnough(cues, from, k)
    ensures Groups(cues, from) == [cues[from..last + 1]] + Groups(cues, last + 1)
  {
    var g := GroupLast(cues, from, from);
    assert g == last;
  }

  lemma {:induction false} LastGroup(cues: seq<Cue>, from: nat)
    requires from < |cues| && forall k | from <= k < |cues| :: !LongEnough(cues, from, k)
    ensures Groups(cues, from) == [cues[from..]] && Duration(cues[from..]) < MIN_CUE_MS
    ensures cues[from..|cues|] == cues[from..]
  {
    assert GroupLast(cues, from, from) == |cues| - 1;
    assert cues[from..|cues|] == cues[from..];
    assert Groups(cues, |cues|) == [];
    assert !LongEnough(cues, from, |cues| - 1);
  }

  lemma {:induction false} JoinedBoth(a: Group, b: Group)
    requires a != [] && b != []
    ensures Joined(a + b) == Cue(a[0].startMs, b[|b| - 1].endMs, JoinedText(a) + " " + JoinedText(b))
    decreases |b|
  {
    var both, last := a + b, |b| - 1;
    if last == 0 {
      assert both[..|a|] == a;
    } else {
      JoinedBoth(a, b[..last]);
      assert both[..|both| - 1] == a + b[..last];
    }
  }

  // What merging keeps

  lemma {:induction false} FlatConcat(a: seq<Group>, b: seq<Group>)
    ensures Flat(a + b) == Flat(a) + Flat(b)
  {
    if a == [] {
      assert a + b == b;
    } else {
      assert (a + b)[1..] == a[1..] + b;
      FlatConcat(a[1..], b);
      Regroup(a[0], Flat(a[1..]), Flat(b));
    }
  }

  lemma FlatOfOne(group: Group)
    ensures Flat([group]) == group
  {
    assert Flat([]) == [];
  }

  lemma {:induction false} GroupsCoverAll(cues: seq<Cue>, from: nat)
    requires from <= |cues|
    ensures Flat(Groups(cues, from)) == cues[from..]
    decreases |cues| - from
  {
    if from < |cues| {
      var end := GroupLast(cues, from, from) + 1;
      GroupsCoverAll(cues, end);
      Slices(cues, from, end);
      FlatOfOne(cues[from..end]);
      FlatConcat([cues[from..end]], Groups(cues, end));
    }
  }

  lemma SettledCoversAll(groups: seq<Group>)
    requires NoneEmpty(groups)
    ensures Flat(Settled(groups)) == Flat(groups)
  {
    var n := |groups|;
    if n >= 2 {
      var front, x, y := groups[..n - 2], groups[n - 2], groups[n - 1];
      assert groups == front + ([x] + [y]);
      FlatConcat(front, [x] + [y]);
      FlatConcat([x], [y]);
      FlatOfOne(x);
      FlatOfOne(y);
      FlatConcat(front, [x + y]);
      FlatOfOne(x + y);
    }
  }

  /** Every cue goes into exactly one group, in order. */
  lemma MergeGroupsCoverAll(cues: seq<Cue>)
    ensures Flat(MergeGroups(cues)) == cues
  {
    GroupsCoverAll(cues, 0);
    SettledCoversAll(Groups(cues, 0));
    assert cues[0..] == cues;
  }

  lemma {:induction false} WordsOfJoined(group: Group)
    requires group != []
    ensures Words(JoinedText(group)) == CueWords(group)
  {
    var last := |group| - 1;
    if last == 0 {
      WordsOfCue(group[0]);
      assert group == [group[0]];
    } else {
      var front := group[..last];
      WordsOfJoined(front);
      JoinWords(JoinedText(front), group[last].text);
      WordsOfCue(group[last]);
      CueWordsConcat(front, [group[last]]);
      assert group == front + [group[last]];
    }
  }

  lemma {:induction false} WordsOfJoinedAll(groups: seq<Group>)
    requires NoneEmpty(groups)
    ensures CueWords(JoinedAll(groups)) == CueWords(Flat(groups))
  {
    if groups == [] {
      assert JoinedAll(groups) == Flat(groups);
    } else {
      var first, rest := groups[0], groups[1..];
      WordsOfJoinedAll(rest);
      WordsOfJoined(first);
      WordsOfCue(Joined(first));
      CueWordsConcat([Joined(first)], JoinedAll(rest));
      CueWordsConcat(first, Flat(rest));
      assert JoinedAll(groups) == [Joined(first)] + JoinedAll(rest);
    }
  }

  lemma OrderedParts(a: seq<Cue>, b: seq<Cue>)
    requires Ordered(a + b)
    ensures Ordered(a) && Ordered(b)
    ensures forall i, j | 0 <= i < |a| && 0 <= j < |b| :: a[i].endMs <= b[j].startMs
  {
    var both := a + b;
    assert forall i | 0 <= i < |a| :: both[i] == a[i];
    assert forall j | 0 <= j < |b| :: both[|a| + j] == b[j];
  }

  lemma OrderedSpan(group: Group)
    requires group != [] && Ordered(group)
    ensures Duration(group) >= 0
  {
    var last := |group| - 1;
    assert 0 < last ==> group[0].endMs <= group[last].startMs;
  }

  /** Joined groups start no earlier than the cues they are made of. */
  lemma {:induction false} JoinedStartsNoEarlier(groups: seq<Group>, t: int)
    requires NoneEmpty(groups) && forall j | 0 <= j < |Flat(groups)| :: t <= Flat(groups)[j].startMs
    ensures forall i | 0 <= i < |groups| :: t <= JoinedAll(groups)[i].startMs
  {
    if groups != [] {
      var first, rest := groups[0], groups[1..];
      assert forall j | 0 <= j < |Flat(rest)| :: Flat(rest)[j] == Flat(groups)[|first| + j];
      JoinedStartsNoEarlier(rest, t);
      assert Flat(groups)[0] == first[0];
      assert forall i | 0 < i < |groups| :: JoinedAll(groups)[i] == JoinedAll(rest)[i - 1];
    }
  }

  lemma {:induction false} JoinedAllOrdered(groups: seq<Group>)
    requires NoneEmpty(groups) && Ordered(Flat(groups))
    ensures Ordered(JoinedAll(groups))
  {
    if groups != [] {
      var first, rest := groups[0], groups[1..];
      OrderedParts(first, Flat(rest));
      OrderedSpan(first);
      JoinedAllOrdered(rest);
      JoinedStartsNoEarlier(rest, first[|first| - 1].endMs);
      OneMoreInFront(Joined(first), JoinedAll(rest));
      assert JoinedAll(groups) == [Joined(first)] + JoinedAll(rest);
    }
  }

  lemma OneMoreInFront(cue: Cue, cues: seq<Cue>)
    requires cue.startMs <= cue.endMs && Ordered(cues)
    requires forall j | 0 <= j < |cues| :: cue.endMs <= cues[j].startMs
    ensures Ordered([cue] + cues)
  {
    var all := [cue] + cues;
    assert forall j | 0 < j < |all| :: all[j] == cues[j - 1];
  }

  /** In time order a short last group only adds to the one before it. */
  lemma SettledLongEnough(groups: seq<Group>)
    requires NoneEmpty(groups) && Ordered(Flat(groups))
    requires forall i | 0 <= i < |groups| - 1 :: Duration(groups[i]) >= MIN_CUE_MS
    ensures var settled := Settled(groups);
      |settled| <= 1 || forall i | 0 <= i < |settled| :: Duration(settled[i]) >= MIN_CUE_MS
  {
    var n := |groups|;
    if n >= 2 && Duration(groups[n - 1]) < MIN_CUE_MS {
      var front, x, y := groups[..n - 2], groups[n - 2], groups[n - 1];
      assert groups == front + ([x] + [y]);
      FlatConcat(front, [x] + [y]);
      FlatConcat([x], [y]);
      FlatOfOne(x);
      FlatOfOne(y);
      OrderedParts(Flat(front), x + y);
      OrderedParts(x, y);
      OrderedSpan(y);
      assert Duration(x + y) >= Duration(x);
    }
  }

  /**
   * mergeShortCues on cues in time order: the result is in time order, every cue lasts at least 800 ms unless it is
   * the only one, and the words are the same.
   */
  lemma MergedIsOrderedAndLong(cues: seq<Cue>)
    requires Ordered(cues)
    ensures var out := Merged(cues);
      && Ordered(out) && CueWords(out) == CueWords(cues)
      && (|out| <= 1 || forall i | 0 <= i < |out| :: out[i].endMs - out[i].startMs >= MIN_CUE_MS)
  {
    MergeGroupsCoverAll(cues);
    GroupsCoverAll(cues, 0);
    assert cues[0..] == cues;
    WordsOfJoinedAll(MergeGroups(cues));
    JoinedAllOrdered(MergeGroups(cues));
    SettledLongEnough(Groups(cues, 0));
  }

  /** The cues of the group before its last one are too short together. */
  predicate Minimal(group: Group) {
    forall k: nat | 0 < k < |group| :: Duration(group[..k]) < MIN_CUE_MS
  }

  lemma {:induction false} GroupsAreMinimal(cues: seq<Cue>, from: nat)
    requires from <= |cues|
    ensures forall i | 0 <= i < |Groups(cues, from)| :: Minimal(Groups(cues, from)[i])
    decreases |cues| - from
  {
    if from < |cues| {
      var last := GroupLast(cues, from, from);
      GroupsAreMinimal(cues, last + 1);
      FirstGroupIsMinimal(cues, from, last);
    }
  }

  lemma FirstGroupIsMinimal(cues: seq<Cue>, from: nat, last: nat)
    requires from <= last < |cues| && forall k | from <= k < last :: !LongEnough(cues, from, k)
    ensures Minimal(cues[from..last + 1])
  {
    var group := cues[from..last + 1];
    forall k: nat | 0 < k < |group|
      ensures Duration(group[..k]) < MIN_CUE_MS
    {
      assert !LongEnough(cues, from, from + k - 1);
    }
  }

  /** Nothing is merged needlessly: every group but the last ends as soon as it lasts long enough. */
  lemma NothingMergedNeedlessly(cues: seq<Cue>)
    ensures forall i | 0 <= i < |MergeGroups(cues)| - 1 ::
      Minimal(MergeGroups(cues)[i]) && Duration(MergeGroups(cues)[i]) >= MIN_CUE_MS
  {
    GroupsAreMinimal(cues, 0);
  }

  // buildCues

  function Trimmed(segments: seq<Cue>): (cues: seq<Cue>) {
    if segments == [] then [] else
    var segment := segments[0];
    var text := Trim(segment.text);
    (if text == "" then [] else [Cue(segment.startMs, segment.endMs, text)]) + Trimmed(segments[1..])
  }

  function SplitAll(cues: seq<Cue>): seq<Cue> {
    if cues == [] then [] else SplitLong(cues[0]) + SplitAll(cues[1..])
  }

  function BuildCues(segments: seq<Cue>): seq<Cue> { Merged(SplitAll(Trimmed(segments))) }

  predicate NotBefore(cues: seq<Cue>, t: int) { forall j | 0 <= j < |cues| :: t <= cues[j].startMs }

  lemma OrderedTail(cues: seq<Cue>)
    requires cues != [] && Ordered(cues)
    ensures Ordered(cues[1..]) && NotBefore(cues[1..], cues[0].endMs) && cues[0].startMs <= cues[0].endMs
  {
    OrderedParts([cues[0]], cues[1..]);
    assert cues == [cues[0]] + cues[1..];
  }

  lemma OrderedConcat(a: seq<Cue>, b: seq<Cue>, t: int)
    requires Ordered(a) && Ordered(b) && NotBefore(b, t) && forall i | 0 <= i < |a| :: a[i].endMs <= t
    ensures Ordered(a + b)
  {
    var both := a + b;
    assert forall i | 0 <= i < |both| :: both[i] == if i < |a| then a[i] else b[i - |a|];
  }

  /** Blank segments go; the others keep their times, and all words stay. */
  lemma {:induction false} TrimmedKeepsOrderAndWords(segments: seq<Cue>, t: int)
    requires Ordered(segments) && NotBefore(segments, t)
    ensures Ordered(Trimmed(segments)) && NotBefore(Trimmed(segments), t)
    ensures CueWords(Trimmed(segments)) == CueWords(segments)
  {
    if segments == [] {
      assert Trimmed(segments) == segments;
    } else {
      var segment, rest := segments[0], segments[1..];
      var cue := Cue(segment.startMs, segment.endMs, Trim(segment.text));
      OrderedTail(segments);
      TrimmedKeepsOrderAndWords(rest, segment.endMs);
      FirstTrimmed(segments);
      if cue.text == "" {
        assert Trimmed(segments) == Trimmed(rest);
      } else {
        OneMoreInFront(cue, Trimmed(rest));
      }
    }
  }

  lemma {:induction false} FirstTrimmed(segments: seq<Cue>)
    requires segments != [] && CueWords(Trimmed(segments[1..])) == CueWords(segments[1..])
    ensures CueWords(Trimmed(segments)) == CueWords(segments)
  {
    var segment, rest := segments[0], segments[1..];
    var cue := Cue(segment.startMs, segment.endMs, Trim(segment.text));
    WordsOfTrim(segment.text);
    WordsOfCue(segment);
    CueWordsConcat([segment], rest);
    assert segments == [segment] + rest;
    if cue.text == "" {
      assert Trimmed(segments) == Trimmed(rest);
    } else {
      WordsOfCue(cue);
      CueWordsConcat([cue], Trimmed(rest));
    }
  }

  lemma {:induction false} SplitAllKeepsOrderAndWords(cues: seq<Cue>, t: int)
    requires Ordered(cues) && NotBefore(cues, t)
    ensures Ordered(SplitAll(cues)) && NotBefore(SplitAll(cues), t)
    ensures CueWords(SplitAll(cues)) == CueWords(cues)
  {
    if cues == [] {
      assert SplitAll(cues) == cues;
    } else {
      var cue, rest := cues[0], cues[1..];
      OrderedTail(cues);
      SplitAllKeepsOrderAndWords(rest, cue.endMs);
      LongCueIsTiled(cue);
      TilesStayInside(cue, SplitLong(cue));
      OrderedConcat(SplitLong(cue), SplitAll(rest), cue.endMs);
      WordsOfCue(cue);
      CueWordsConcat([cue], rest);
      CueWordsConcat(SplitLong(cue), SplitAll(rest));
      assert cues == [cue] + rest;
    }
  }

  lemma TilesStayInside(cue: Cue, pieces: seq<Cue>)
    requires Tiles(cue, pieces)
    ensures NotBefore(pieces, cue.startMs) && forall i | 0 <= i < |pieces| :: pieces[i].endMs <= cue.endMs
  {
    var last := |pieces| - 1;
    forall i | 0 <= i < |pieces|
      ensures cue.startMs <= pieces[i].startMs && pieces[i].endMs <= cue.endMs
    {
      assert 0 < i ==> pieces[0].endMs <= pieces[i].startMs;
      assert i < last ==> pieces[i].endMs <= pieces[last].startMs;
    }
  }

  /**
   * Segments in time order become cues in time order that do not overlap, each at least 800 ms long unless it is the
   * only one, with exactly the words of the segments.
   */
  lemma CuesAreOrderedLongAndComplete(segments: seq<Cue>)
    requires Ordered(segments)
    ensures var out := BuildCues(segments);
      && Ordered(out) && CueWords(out) == CueWords(segments)
      && (|out| <= 1 || forall i | 0 <= i < |out| :: out[i].endMs - out[i].startMs >= MIN_CUE_MS)
  {
    var t := if segments == [] then 0 else segments[0].startMs;
    FirstIsEarliest(segments);
    TrimmedKeepsOrderAndWords(segments, t);
    SplitAllKeepsOrderAndWords(Trimmed(segments), t);
    MergedIsOrderedAndLong(SplitAll(Trimmed(segments)));
  }

  lemma FirstIsEarliest(cues: seq<Cue>)
    requires Ordered(cues)
    ensures cues != [] ==> NotBefore(cues, cues[0].startMs)
  {
    forall j | 0 < j < |cues|
      ensures cues[0].startMs <= cues[j].startMs
    {
      assert cues[0].endMs <= cues[j].startMs;
    }
  }

  /** From the start of the first cue to the end of the last. */
  function Span(cues: seq<Cue>): (int, int)
    requires cues != []
  {
    (cues[0].startMs, cues[|cues| - 1].endMs)
  }

  predicate SameSpan(a: seq<Cue>, b: seq<Cue>) { (a == [] <==> b == []) && (a != [] ==> Span(a) == Span(b)) }

  lemma {:induction false} JoinedKeepsSpan(groups: seq<Group>)
    requires NoneEmpty(groups)
    ensures SameSpan(JoinedAll(groups), Flat(groups))
  {
    if groups != [] {
      var first, rest := groups[0], groups[1..];
      JoinedKeepsSpan(rest);
      assert JoinedAll(groups) == [Joined(first)] + JoinedAll(rest);
      assert Flat(groups)[0] == first[0];
      if rest != [] {
        assert Flat(groups)[|Flat(groups)| - 1] == Flat(rest)[|Flat(rest)| - 1];
      }
    }
  }

  lemma {:induction false} SplitAllKeepsSpan(cues: seq<Cue>)
    requires Ordered(cues)
    ensures SameSpan(SplitAll(cues), cues)
  {
    if cues != [] {
      OrderedTail(cues);
      SplitAllKeepsSpan(cues[1..]);
      LongCueIsTiled(cues[0]);
      assert cues == [cues[0]] + cues[1..];
    }
  }

  /** The cues span exactly the time from the first non-blank segment's start to the last one's end. */
  lemma CuesKeepSpan(segments: seq<Cue>)
    requires Ordered(segments)
    ensures SameSpan(BuildCues(segments), Trimmed(segments))
  {
    var t := if segments == [] then 0 else segments[0].startMs;
    FirstIsEarliest(segments);
    TrimmedKeepsOrderAndWords(segments, t);
    SplitAllKeepsSpan(Trimmed(segments));
    var cues := SplitAll(Trimmed(segments));
    MergeGroupsCoverAll(cues);
    JoinedKeepsSpan(MergeGroups(cues));
  }
}
