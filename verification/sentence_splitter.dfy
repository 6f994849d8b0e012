/** Splitting a text into sentences: splitSentences in apps/web/src/server/export/cues.ts. */
module SentenceSplitter {
  import opened Options
  import opened Text

  datatype Class = Terminator | Closer | Space

  /** The three character classes of the boundary pattern: [.!?…], ["'»)\]] and \s. */
  predicate In(c: char, class_: Class) {
    match class_
    case Terminator => c == '.' || c == '!' || c == '?' || c == '\U{2026}'
    case Closer => c == '\"' || c == '\'' || c == '\U{00BB}' || c == ')' || c == ']'
    case Space => IsSpace(c)
  }

  predicate AllIn(text: string, from: nat, to: nat, class_: Class)
    requires to <= |text|
  {
    forall i | from <= i < to :: In(text[i], class_)
  }

  /** What the pattern says: terminators, at least one; then closers; then white space, at least one. */
  predicate Matches(text: string, p: nat, a: nat, b: nat, end: nat) {
    p < a <= b < end <= |text| && AllIn(text, p, a, Terminator) && AllIn(text, a, b, Closer) && AllIn(text, b, end, Space)
  }

  /** End of the longest run of a class from p on. */
  function RunEnd(text: string, p: nat, class_: Class): (end: nat)
    requires p <= |text|
    ensures p <= end <= |text| && AllIn(text, p, end, class_) && (end < |text| ==> !In(text[end], class_))
    decreases |text| - p
  {
    if p < |text| && In(text[p], class_) then RunEnd(text, p + 1, class_) else p
  }

  /** The match the expression engine finds at p: every repetition takes all it can. */
  function MatchEnd(text: string, p: nat): (end: Option<nat>)
    requires p <= |text|
    ensures end.Some? ==> p < end.value <= |text|
  {
    var a := RunEnd(text, p, Terminator);
    var b := RunEnd(text, a, Closer);
    var end := RunEnd(text, b, Space);
    if a == p || end == b then None else Some(end)
  }

  /** Giving characters back never helps: there is a match exactly when the greedy one exists, and it is the longest. */
  lemma GreedyMatchIsLongest(text: string, p: nat, a: nat, b: nat, end: nat)
    requires Matches(text, p, a, b, end)
    ensures a == RunEnd(text, p, Terminator) && b == RunEnd(text, a, Closer)
    ensures MatchEnd(text, p).Some? && end <= MatchEnd(text, p).value
  {
    RunEndIs(text, p, a, Terminator);
    RunEndIs(text, a, b, Closer);
    var last := RunEnd(text, b, Space);
    assert In(text[b], Space);
  }

  lemma {:induction false} RunEndIs(text: string, p: nat, end: nat, class_: Class)
    requires p <= end <= |text| && AllIn(text, p, end, class_) && (end < |text| ==> !In(text[end], class_))
    ensures RunEnd(text, p, class_) == end
    decreases end - p
  {
    if p < end {
      RunEndIs(text, p + 1, end, class_);
    }
  }

  /** Where the first match at or after p starts. */
  function FirstMatch(text: string, p: nat): (start: Option<nat>)
    requires p <= |text|
    ensures start.Some? ==> p <= start.value < |text| && MatchEnd(text, start.value).Some?
    ensures forall q | p <= q < (if start.Some? then start.value else |text|) :: MatchEnd(text, q).None?
    decreases |text| - p
  {
    if p == |text| then None
    else if MatchEnd(text, p).Some? then Some(p)
    else FirstMatch(text, p + 1)
  }

  /** The next boundary: the end of the first match. */
  function NextCut(text: string, last: nat): (end: Option<nat>)
    requires last <= |text|
    ensures end.Some? ==> last < end.value <= |text|
  {
    var start := FirstMatch(text, last);
    if start.None? then None else MatchEnd(text, start.value)
  }

  function NonEmpty(parts: seq<string>): seq<string> {
    if parts == [] then []
    else NonEmpty(parts[..|parts| - 1]) + (if parts[|parts| - 1] == "" then [] else [parts[|parts| - 1]])
  }

  /** The pieces of a text from last on: one up to each boundary and the remainder. */
  function Pieces(text: string, last: nat): (parts: seq<string>)
    requires last <= |text|
    ensures parts != []
    decreases |text| - last
  {
    var end := NextCut(text, last);
    if end.None? then [Trim(text[last..])]
    else [Trim(text[last..end.value])] + Pieces(text, end.value)
  }

  function Sentences(text: string): seq<string> { NonEmpty(Pieces(text, 0)) }

  method SplitSentences(text: string) returns (parts: seq<string>)
    ensures parts == Sentences(text)
  {
    parts := [];
    var last := 0;
    var cut := NextCut(text, last);
    while cut.Some?
      invariant last <= |text| && cut == NextCut(text, last)
      invariant Pieces(text, 0) == parts + Pieces(text, last)
      decreases |text| - last
    {
      var part := Trim(text[last..cut.value]);
      Regroup(parts, [part], Pieces(text, cut.value));
      parts, last := parts + [part], cut.value;
      cut := NextCut(text, last);
    }
    parts := NonEmpty(parts + [Trim(text[last..])]);
  }

  // Words

  lemma {:induction false} NonEmptyKeepsWords(parts: seq<string>)
    ensures WordsOf(NonEmpty(parts)) == WordsOf(parts)
  {
    if parts != [] {
      var front, part := parts[..|parts| - 1], parts[|parts| - 1];
      NonEmptyKeepsWords(front);
      assert parts == front + [part];
      WordsOfConcat(front, [part]);
      WordsOfOne(part);
      if part == "" {
        assert NonEmpty(parts) == NonEmpty(front);
      } else {
        WordsOfConcat(NonEmpty(front), [part]);
      }
    }
  }

  /** A cut follows white space, so the words on both sides are those of the text. */
  lemma {:induction false} PiecesKeepWords(text: string, last: nat)
    requires last <= |text|
    ensures WordsOf(Pieces(text, last)) == Words(text[last..])
    decreases |text| - last
  {
    var end := NextCut(text, last);
    if end.None? {
      OnePiece(text[last..]);
    } else {
      PiecesKeepWords(text, end.value);
      CutFollowsSpace(text, last);
      Slices(text, last, end.value);
      OneMorePiece(text[last..], text[last..end.value], text[end.value..], Pieces(text, end.value));
    }
  }

  lemma OnePiece(piece: string)
    ensures WordsOf([Trim(piece)]) == Words(piece)
  {
    WordsOfTrim(piece);
    WordsOfOne(Trim(piece));
  }

  lemma OneMorePiece(text: string, piece: string, rest: string, parts: seq<string>)
    requires text == piece + rest && piece != "" && IsSpace(piece[|piece| - 1])
    requires WordsOf(parts) == Words(rest)
    ensures WordsOf([Trim(piece)] + parts) == Words(text)
  {
    OnePiece(piece);
    WordsConcat(piece, rest);
    WordsOfConcat([Trim(piece)], parts);
  }

  lemma Slices<T>(s: seq<T>, i: nat, j: nat)
    requires i <= j <= |s|
    ensures s[i..] == s[i..j] + s[j..]
  {
  }

  lemma CutFollowsSpace(text: string, last: nat)
    requires last <= |text| && NextCut(text, last).Some?
    ensures IsSpace(text[NextCut(text, last).value - 1])
  {
    assert In(text[NextCut(text, last).value - 1], Space);
  }

  /** Splitting drops no word, invents none and keeps their order. */
  lemma SentencesKeepWords(text: string)
    ensures WordsOf(Sentences(text)) == Words(text)
  {
    PiecesKeepWords(text, 0);
    NonEmptyKeepsWords(Pieces(text, 0));
    assert text[0..] == text;
  }

  // Where the text is cut

  /** Terminators and perhaps closers at the end. */
  predicate Finished(part: string) {
    exists p: nat, a: nat | p < a <= |part| :: AllIn(part, p, a, Terminator) && AllIn(part, a, |part|, Closer)
  }

  /** A match inside a slice is a match in the text. */
  lemma MatchInSlice(text: string, i: nat, j: nat, p: nat) returns (a: nat, b: nat, end: nat)
    requires i <= j <= |text| && p <= j - i && MatchEnd(text[i..j], p).Some?
    ensures Matches(text, i + p, a, b, end) && end <= j
  {
    var slice := text[i..j];
    a := RunEnd(slice, p, Terminator);
    b := RunEnd(slice, a, Closer);
    end := RunEnd(slice, b, Space);
    SliceIn(text, i, j, p, a, Terminator);
    SliceIn(text, i, j, a, b, Closer);
    SliceIn(text, i, j, b, end, Space);
    a, b, end := i + a, i + b, i + end;
  }

  lemma SliceIn(text: string, i: nat, j: nat, from: nat, to: nat, class_: Class)
    requires i <= j <= |text| && from <= to <= j - i
    ensures AllIn(text[i..j], from, to, class_) == AllIn(text, i + from, i + to, class_)
  {
    assert forall k | i + from <= k < i + to :: text[k] == text[i..j][k - i];
    assert forall k | from <= k < to :: text[i..j][k] == text[i + k];
  }

  /** After the last boundary there is nothing left to split. */
  lemma LastPieceIsWhole(text: string, last: nat)
    requires last <= |text| && NextCut(text, last).None?
    ensures FirstMatch(Trim(text[last..]), 0).None?
  {
    var i, j := TrimOfSlice(text, last, |text|);
    ToTheEnd(text, last);
    var start := FirstMatch(text[i..j], 0);
    if start.Some? {
      var a, b, end := MatchInSlice(text, i, j, start.value);
      GreedyMatchIsLongest(text, i + start.value, a, b, end);
      assert false;
    }
  }

  lemma ToTheEnd<T>(s: seq<T>, i: nat)
    requires i <= |s|
    ensures s[i..|s|] == s[i..]
  {
  }

  /** A piece before a boundary is a finished sentence. */
  lemma PieceIsFinished(text: string, last: nat, i: nat, j: nat, s: nat, a: nat, b: nat, end: nat)
    requires last <= s && Matches(text, s, a, b, end) && IsCore(text, last, end, i, j)
    ensures i <= s && j == b && Finished(text[i..j])
  {
    assert In(text[s], Terminator);
    assert a < b ==> In(text[b - 1], Closer);
    assert a == b ==> In(text[b - 1], Terminator);
    SliceIn(text, i, j, s - i, a - i, Terminator);
    SliceIn(text, i, j, a - i, b - i, Closer);
    assert AllIn(text[i..j], s - i, a - i, Terminator) && AllIn(text[i..j], a - i, |text[i..j]|, Closer);
  }

  /** Any other match that starts before b needs the white space behind b as well. */
  lemma OtherMatchEndsLater(
      text: string, last: nat, s: nat, a: nat, b: nat, end: nat, p: nat, a': nat, b': nat, end': nat)
    requires Matches(text, s, a, b, end) && last <= s && FirstMatch(text, last) == Some(s)
    requires last <= p < b && Matches(text, p, a', b', end')
    ensures b < end'
  {
    GreedyMatchIsLongest(text, p, a', b', end');
    assert In(text[p], Terminator);
    assert a < b ==> In(text[a], Closer);
    assert In(text[b], Space);
    RunEndIs(text, p, a, Terminator);
    RunEndIs(text, a, b, Closer);
  }

  lemma PieceIsWhole(text: string, last: nat, i: nat, j: nat, s: nat, a: nat, b: nat, end: nat)
    requires last <= i <= s && i <= j == b && Matches(text, s, a, b, end) && FirstMatch(text, last) == Some(s)
    ensures FirstMatch(text[i..j], 0).None?
  {
    var start := FirstMatch(text[i..j], 0);
    if start.Some? {
      var a', b', end' := MatchInSlice(text, i, j, start.value);
      OtherMatchEndsLater(text, last, s, a, b, end, i + start.value, a', b', end');
      assert false;
    }
  }

  lemma PieceBeforeCut(text: string, last: nat)
    requires last <= |text| && NextCut(text, last).Some?
    ensures var part := Trim(text[last..NextCut(text, last).value]);
      Finished(part) && FirstMatch(part, 0).None?
  {
    var s := FirstMatch(text, last).value;
    var a := RunEnd(text, s, Terminator);
    var b := RunEnd(text, a, Closer);
    var end := RunEnd(text, b, Space);
    var i, j := TrimOfSlice(text, last, end);
    PieceIsFinished(text, last, i, j, s, a, b, end);
    PieceIsWhole(text, last, i, j, s, a, b, end);
  }

  predicate Whole(part: string) { IsTrimmed(part) && FirstMatch(part, 0).None? }

  predicate AreSentences(parts: seq<string>) {
    && (forall k | 0 <= k < |parts| :: Whole(parts[k]))
    && (forall k | 0 <= k < |parts| - 1 :: Finished(parts[k]))
  }

  lemma OneMoreSentence(part: string, parts: seq<string>)
    requires Whole(part) && Finished(part) && AreSentences(parts)
    ensures AreSentences([part] + parts)
  {
  }

  lemma {:induction false} PiecesAreSentences(text: string, last: nat)
    requires last <= |text|
    ensures AreSentences(Pieces(text, last))
    decreases |text| - last
  {
    var end := NextCut(text, last);
    if end.None? {
      LastPieceIsWhole(text, last);
    } else {
      PieceBeforeCut(text, last);
      PiecesAreSentences(text, end.value);
      OneMoreSentence(Trim(text[last..end.value]), Pieces(text, end.value));
    }
  }

  lemma {:induction false} NonEmptyOf(parts: seq<string>)
    requires forall k | 0 <= k < |parts| :: parts[k] != ""
    ensures NonEmpty(parts) == parts
  {
    if parts != [] {
      NonEmptyOf(parts[..|parts| - 1]);
    }
  }

  /** When only the last piece can be blank. */
  lemma {:induction false} NonEmptyButLast(pieces: seq<string>)
    requires pieces != [] && forall k | 0 <= k < |pieces| - 1 :: pieces[k] != ""
    ensures NonEmpty(pieces) == if pieces[|pieces| - 1] == "" then pieces[..|pieces| - 1] else pieces
  {
    var front, last := pieces[..|pieces| - 1], pieces[|pieces| - 1];
    if last == "" {
      NonEmptyOf(front);
      assert NonEmpty(pieces) == NonEmpty(front) + [];
    } else {
      NonEmptyOf(pieces);
    }
  }

  lemma SentencesOf(pieces: seq<string>)
    requires AreSentences(pieces) && pieces != []
    ensures var parts := NonEmpty(pieces);
      AreSentences(parts) && forall k | 0 <= k < |parts| :: parts[k] != ""
  {
    forall k | 0 <= k < |pieces| - 1
      ensures pieces[k] != ""
    {
      assert Finished(pieces[k]);
    }
    NonEmptyButLast(pieces);
  }

  lemma WholeSplitsToItself(part: string)
    requires Whole(part) && part != ""
    ensures Sentences(part) == [part]
  {
    ToTheEnd(part, 0);
    TrimOfTrimmed(part);
    NonEmptyOf([part]);
    assert Pieces(part, 0) == [Trim(part[0..])];
  }

  predicate AllTrimmed(parts: seq<string>) { forall k | 0 <= k < |parts| :: parts[k] != "" && IsTrimmed(parts[k]) }

  lemma SentencesAreTrimmed(text: string)
    ensures AllTrimmed(Sentences(text))
  {
    PiecesAreSentences(text, 0);
    SentencesOf(Pieces(text, 0));
  }

  /**
   * A text is cut at every sentence boundary and only there: no part is blank, splitting a part again changes
   * nothing, and every part but the last ends with a terminator and perhaps closers.
   */
  lemma CutExactlyAtSentences(text: string)
    ensures var parts := Sentences(text);
      && (forall k | 0 <= k < |parts| :: parts[k] != "" && IsTrimmed(parts[k]) && Sentences(parts[k]) == [parts[k]])
      && (forall k | 0 <= k < |parts| - 1 :: Finished(parts[k]))
  {
    PiecesAreSentences(text, 0);
    SentencesOf(Pieces(text, 0));
    forall part | Whole(part) && part != ""
      ensures Sentences(part) == [part]
    {
      WholeSplitsToItself(part);
    }
  }
}
