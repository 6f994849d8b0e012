/** Greedy word wrap of a cue's text: wrapCueText in apps/web/src/server/export/cues.ts. */
module Wrapping {
  import opened Text

  /** The words of one line. */
  type Line = seq<string>

  /** line.join(" ") */
  function Joined(line: Line): string {
    if line == [] then ""
    else if |line| == 1 then line[0]
    else Joined(line[..|line| - 1]) + " " + line[|line| - 1]
  }

  function JoinedAll(lines: seq<Line>): (texts: seq<string>) {
    seq(|lines|, i requires 0 <= i < |lines| => Joined(lines[i]))
  }

  function Flat(lines: seq<Line>): seq<string> {
    if lines == [] then [] else Flat(lines[..|lines| - 1]) + lines[|lines| - 1]
  }

  predicate Fits(line: Line, width: int) { |line| == 1 || |Joined(line)| <= width }

  /** No line is empty, and each fits or is one word. */
  predicate AllFit(lines: seq<Line>, width: int) {
    forall i | 0 <= i < |lines| :: lines[i] != [] && Fits(lines[i], width)
  }

  /** A way of breaking the words into lines. */
  predicate IsBreaking(lines: seq<Line>, words: seq<string>, width: int) {
    Flat(lines) == words && AllFit(lines, width)
  }

  /** The lines of the greedy wrap: each word goes on the last line if it fits there. */
  function Greedy(words: seq<string>, width: int): (lines: seq<Line>)
    ensures words == [] <==> lines == []
    ensures forall i | 0 <= i < |lines| :: lines[i] != []
  {
    if words == [] then [] else
    var word, lines := words[|words| - 1], Greedy(words[..|words| - 1], width);
    Placed(lines, word, width)
  }

  function Placed(lines: seq<Line>, word: string, width: int): (placed: seq<Line>)
    ensures placed != []
  {
    var n := |lines|;
    if n > 0 && |Joined(lines[n - 1])| + 1 + |word| <= width then lines[n - 1 := lines[n - 1] + [word]]
    else lines + [[word]]
  }

  lemma FlatOfOneMore(lines: seq<Line>, line: Line)
    ensures Flat(lines + [line]) == Flat(lines) + line
  {
    assert (lines + [line])[..|lines|] == lines;
  }

  lemma JoinedOneMore(line: Line, word: string)
    ensures Joined(line + [word]) == if line == [] then word else Joined(line) + " " + word
  {
    assert (line + [word])[..|line|] == line;
  }

  lemma PlacedIsFlat(lines: seq<Line>, word: string, width: int)
    ensures Flat(Placed(lines, word, width)) == Flat(lines) + [word]
  {
    var n := |lines|;
    FlatOfOneMore(lines, [word]);
    if n > 0 {
      var front, last := lines[..n - 1], lines[n - 1];
      FlatOfOneMore(front, last + [word]);
      FlatOfOneMore(front, last);
      assert lines == front + [last];
      assert lines[n - 1 := last + [word]] == front + [last + [word]];
    }
  }

  lemma PlacedFits(lines: seq<Line>, word: string, width: int)
    requires AllFit(lines, width)
    ensures AllFit(Placed(lines, word, width), width)
  {
    if lines != [] {
      JoinedOneMore(lines[|lines| - 1], word);
    }
  }

  lemma {:induction false} GreedyIsBreaking(words: seq<string>, width: int)
    ensures IsBreaking(Greedy(words, width), words, width)
  {
    if words != [] {
      var front, word := words[..|words| - 1], words[|words| - 1];
      GreedyIsBreaking(front, width);
      PlacedIsFlat(Greedy(front, width), word, width);
      PlacedFits(Greedy(front, width), word, width);
    }
  }

  /** A line that ends another one is no longer. */
  lemma {:induction false} EndOfLineIsShorter(line: Line, tail: Line)
    ensures |Joined(tail)| <= |Joined(line + tail)|
  {
    if tail != [] {
      var front, word := tail[..|tail| - 1], tail[|tail| - 1];
      assert tail == front + [word];
      Regroup(line, front, [word]);
      EndOfLineIsShorter(line, front);
      JoinedOneMore(front, word);
      JoinedOneMore(line + front, word);
    }
  }

  /** The last lines of two breakings end the same words: the one with fewer words is no longer. */
  lemma LastLines(a: seq<Line>, b: seq<Line>)
    requires a != [] && b != [] && Flat(a) == Flat(b) && |a[|a| - 1]| <= |b[|b| - 1]|
    ensures |Joined(a[|a| - 1])| <= |Joined(b[|b| - 1])|
  {
    var x, y := a[|a| - 1], b[|b| - 1];
    SameEnd(Flat(a[..|a| - 1]), x, Flat(b[..|b| - 1]), y);
    EndOfLineIsShorter(y[..|y| - |x|], x);
    assert y == y[..|y| - |x|] + x;
  }

  lemma SameEnd<T>(a: seq<T>, x: seq<T>, b: seq<T>, y: seq<T>)
    requires a + x == b + y && |x| <= |y|
    ensures y[|y| - |x|..] == x
  {
    assert forall i | 0 <= i < |x| :: x[i] == (a + x)[|a| + i] && y[|y| - |x| + i] == (b + y)[|b| + |y| - |x| + i];
  }

  /** a is ahead of b: fewer lines, or as many with no more words on the last. */
  predicate Ahead(a: seq<Line>, b: seq<Line>) {
    |a| < |b| || (|a| == |b| && (a != [] ==> |a[|a| - 1]| <= |b[|b| - 1]|))
  }

  /** The greedy wrap stays ahead of any other way of breaking the same words. */
  lemma {:induction false} GreedyStaysAhead(words: seq<string>, width: int, lines: seq<Line>)
    requires IsBreaking(lines, words, width)
    ensures Ahead(Greedy(words, width), lines)
    decreases |words|
  {
    if words != [] {
      var n := |lines|;
      assert n > 0;
      var front, word := words[..|words| - 1], words[|words| - 1];
      var others, last := lines[..n - 1], lines[n - 1];
      var m := |last| - 1;
      LastWord(Flat(others), last, words);
      if m == 0 {
        assert Flat(others) == front;
        GreedyStaysAhead(front, width, others);
      } else {
        var shorter := others + [last[..m]];
        ShorterBreaking(lines, words, width);
        GreedyStaysAhead(front, width, shorter);
        GreedyIsBreaking(front, width);
        PlaceAhead(Greedy(front, width), shorter, word, width);
      }
    }
  }

  /** Taking the last word off a breaking. */
  lemma ShorterBreaking(lines: seq<Line>, words: seq<string>, width: int)
    requires IsBreaking(lines, words, width) && words != [] && lines != [] && |lines[|lines| - 1]| > 1
    ensures var last, word := lines[|lines| - 1], words[|words| - 1]; var kept := last[..|last| - 1];
      && IsBreaking(lines[..|lines| - 1] + [kept], words[..|words| - 1], width)
      && last == kept + [word] && |Joined(kept)| + 1 + |word| <= width
  {
    var n := |lines|;
    var others, last := lines[..n - 1], lines[n - 1];
    var kept := last[..|last| - 1];
    LastWord(Flat(others), last, words);
    FlatOfOneMore(others, kept);
    JoinedOneMore(kept, last[|last| - 1]);
    assert last == kept + [last[|last| - 1]];
  }

  lemma LastWord<T>(a: seq<T>, b: seq<T>, c: seq<T>)
    requires a + b == c && b != []
    ensures b[|b| - 1] == c[|c| - 1] && c[..|c| - 1] == a + b[..|b| - 1]
  {
  }

  lemma PlaceAhead(a: seq<Line>, b: seq<Line>, word: string, width: int)
    requires Ahead(a, b) && b != [] && Flat(a) == Flat(b)
    requires |Joined(b[|b| - 1])| + 1 + |word| <= width
    ensures Ahead(Placed(a, word, width), b[|b| - 1 := b[|b| - 1] + [word]])
  {
    if |a| == |b| {
      LastLines(a, b);
    }
  }

  // wrapCueText

  /** The wrapped lines before the limit; white space at the end of the text leaves a space on the last line if it fits. */
  function Wrapped(text: string, width: int): (lines: seq<string>) {
    WithLastToken(JoinedAll(Greedy(Words(text), width)), LastToken(text), width)
  }

  function WithLastToken(lines: seq<string>, token: seq<string>, width: int): (all: seq<string>)
    ensures |all| == |lines|
  {
    var n := |lines|;
    if token != [] && n > 0 && |lines[n - 1]| + 1 <= width then lines[n - 1 := lines[n - 1] + " "] else lines
  }

  /** What does not fit stays on the last line; slicing makes a limit of 0 no limit. */
  function Folded(lines: seq<string>, maxLines: nat): (folded: seq<string>)
    ensures maxLines > 0 ==> |folded| <= maxLines
    ensures maxLines == 0 || |lines| <= maxLines ==> folded == lines
    ensures 0 < maxLines < |lines| ==> |folded| == maxLines && folded[..maxLines - 1] == lines[..maxLines - 1]
  {
    if 0 < maxLines < |lines| then lines[..maxLines - 1] + [Joined(lines[maxLines - 1..])] else lines
  }

  function Open(line: string): seq<string> { if line == "" then [] else [line] }

  /** One round of the loop. */
  function Next(lines: seq<string>, line: string, word: string, width: int): (next: (seq<string>, string)) {
    if line == "" then (lines, word)
    else if |line| + 1 + |word| <= width then (lines, line + " " + word)
    else (lines + [line], word)
  }

  /** The lines and the open line after i tokens. */
  function After(tokens: seq<string>, width: int, i: nat): (state: (seq<string>, string))
    requires i <= |tokens|
  {
    if i == 0 then ([], "") else
    var (lines, line) := After(tokens, width, i - 1);
    Next(lines, line, tokens[i - 1], width)
  }

  /** The lines and the open line are the joined greedy lines. */
  predicate Shows(lines: seq<string>, line: string, greedy: seq<Line>) {
    lines + Open(line) == JoinedAll(greedy) && (line == "" <==> greedy == [])
  }

  lemma NextIsPlaced(lines: seq<string>, line: string, word: string, width: int, greedy: seq<Line>)
    requires Shows(lines, line, greedy) && word != "" && forall i | 0 <= i < |greedy| :: greedy[i] != []
    ensures var (lines', line') := Next(lines, line, word, width);
      Shows(lines', line', Placed(greedy, word, width))
  {
    if greedy == [] {
      assert JoinedAll([[word]]) == [Joined([word])];
    } else {
      var last := |greedy| - 1;
      assert (lines + [line])[last] == line == Joined(greedy[last]);
      JoinedOneMore(greedy[last], word);
      var longer := greedy[last] + [word];
      assert JoinedAll(greedy[last := longer]) == JoinedAll(greedy)[last := Joined(longer)] == lines + [Joined(longer)];
      assert JoinedAll(greedy + [[word]]) == JoinedAll(greedy) + [word];
    }
  }

  lemma {:induction false} AfterPrefix(tokens: seq<string>, more: seq<string>, width: int, i: nat)
    requires i <= |tokens|
    ensures After(tokens + more, width, i) == After(tokens, width, i)
  {
    if i > 0 {
      AfterPrefix(tokens, more, width, i - 1);
    }
  }

  lemma {:induction false} AfterBlank(tokens: seq<string>, width: int, i: nat)
    requires i <= |tokens|
    ensures After([""] + tokens, width, i + 1) == After(tokens, width, i)
  {
    if i == 0 {
      assert After([""] + tokens, width, 0) == ([], "");
    } else {
      AfterBlank(tokens, width, i - 1);
    }
  }

  lemma {:induction false} AfterWords(words: seq<string>, width: int)
    requires forall i | 0 <= i < |words| :: words[i] != ""
    ensures var state := After(words, width, |words|);
      Shows(state.0, state.1, Greedy(words, width))
  {
    if words == [] {
      assert JoinedAll([]) == [];
    } else {
      var front, word := words[..|words| - 1], words[|words| - 1];
      AfterWords(front, width);
      var before := After(front, width, |front|);
      AfterPrefix(front, [word], width, |front|);
      assert words == front + [word];
      NextIsPlaced(before.0, before.1, word, width, Greedy(front, width));
    }
  }

  predicate Blank(token: seq<string>) { token == [] || token == [""] }

  /** The token behind the last word, if there is one. */
  lemma LastRound(lines: seq<string>, line: string, token: seq<string>, width: int)
    requires (line == "" ==> lines == []) && Blank(token)
    ensures var (lines', line') := if token == [] then (lines, line) else Next(lines, line, "", width);
      lines' + Open(line') == WithLastToken(lines + Open(line), token, width)
  {
    if line != "" && token != [] {
      var before := lines + [line];
      assert line + " " + "" == line + " ";
      assert before[|lines| := line + " "] == lines + [line + " "];
    }
  }

  lemma AfterAll(words: seq<string>, last: seq<string>, width: int)
    requires Blank(last)
    ensures var before := After(words, width, |words|);
      After(words + last, width, |words + last|) == if last == [] then before else Next(before.0, before.1, "", width)
  {
    AfterPrefix(words, last, width, |words|);
    if last != [] {
      assert (words + last)[|words|] == "";
    }
  }

  lemma {:induction false} AtEndOfWords(words: seq<string>, last: seq<string>, width: int)
    requires Blank(last) && forall i | 0 <= i < |words| :: words[i] != ""
    ensures var tokens := words + last; var state := After(tokens, width, |tokens|);
      state.0 + Open(state.1) == WithLastToken(JoinedAll(Greedy(words, width)), last, width)
  {
    AfterWords(words, width);
    AfterAll(words, last, width);
    var before := After(words, width, |words|);
    LastRound(before.0, before.1, last, width);
  }

  lemma {:induction false} FirstRound(first: seq<string>, tokens: seq<string>, width: int)
    requires Blank(first)
    ensures After(first + tokens, width, |first + tokens|) == After(tokens, width, |tokens|)
  {
    if first == [] {
      assert first + tokens == tokens;
    } else {
      AfterBlank(tokens, width, |tokens|);
    }
  }

  lemma {:induction false} AtEnd(first: seq<string>, words: seq<string>, last: seq<string>, width: int)
    requires Blank(first) && Blank(last) && forall i | 0 <= i < |words| :: words[i] != ""
    ensures var tokens := first + words + last; var state := After(tokens, width, |tokens|);
      state.0 + Open(state.1) == WithLastToken(JoinedAll(Greedy(words, width)), last, width)
  {
    AtEndOfWords(words, last, width);
    FirstRound(first, words + last, width);
    Regroup(first, words, last);
  }

  method WrapCueText(text: string, width: int, maxLines: nat) returns (lines: seq<string>)
    ensures lines == Folded(Wrapped(text, width), maxLines)
    ensures Joined(lines) == Joined(Wrapped(text, width))
  {
    lines := [];
    var line := "";
    var tokens := Tokens(text);
    for i := 0 to |tokens|
      invariant (lines, line) == After(tokens, width, i)
    {
      var word := tokens[i];
      if line == "" {
        line := word;
      } else if |line| + 1 + |word| <= width {
        line := line + " " + word;
      } else {
        lines := lines + [line];
        line := word;
      }
    }
    TokensOf(text);
    WordsAreWords(text);
    AtEnd(FirstToken(text), Words(text), LastToken(text), width);
    assert lines + [] == lines;
    if line != "" {
      lines := lines + [line];
    }
    if |lines| > maxLines && maxLines > 0 {
      lines := lines[..maxLines - 1] + [Joined(lines[maxLines - 1..])];
    }
    FoldingKeepsText(Wrapped(text, width), maxLines);
  }

  /** Folding takes only line breaks out. */
  lemma {:induction false} FoldingKeepsText(lines: seq<string>, maxLines: nat)
    ensures Joined(Folded(lines, maxLines)) == Joined(lines)
  {
    if 0 < maxLines < |lines| {
      var k := maxLines - 1;
      JoinedFolded(lines[..k], lines[k..]);
      assert lines[..k] + lines[k..] == lines;
    }
  }

  lemma {:induction false} JoinedFolded(front: seq<string>, rest: seq<string>)
    requires rest != []
    ensures Joined(front + [Joined(rest)]) == Joined(front + rest)
    decreases |rest|
  {
    var shorter, last := rest[..|rest| - 1], rest[|rest| - 1];
    JoinedOneMore(front, Joined(rest));
    JoinedOneMore(front + shorter, last);
    assert (front + shorter) + [last] == front + rest;
    if shorter == [] {
      assert front + shorter == front;
    } else {
      JoinedFolded(front, shorter);
      JoinedOneMore(front, Joined(shorter));
      if front != [] {
        SpacesRegroup(Joined(front), Joined(shorter), last);
      }
    }
  }

  lemma SpacesRegroup(a: string, b: string, c: string)
    ensures (a + " " + b) + " " + c == a + " " + (b + " " + c)
  {
  }

  // What wrapping promises

  /** No line had room for the first word of the next one. */
  predicate NoRoom(lines: seq<Line>, width: int)
    requires forall i | 0 <= i < |lines| :: lines[i] != []
  {
    forall i | 0 < i < |lines| :: |Joined(lines[i - 1])| + 1 + |lines[i][0]| > width
  }

  lemma {:induction false} LinesAreFull(words: seq<string>, width: int)
    ensures NoRoom(Greedy(words, width), width)
  {
    if words != [] {
      LinesAreFull(words[..|words| - 1], width);
    }
  }

  /** The greedy lines are the only ones that break the words, fit and leave no room. */
  lemma {:induction false} OnlyGreedyIsFull(words: seq<string>, width: int, lines: seq<Line>)
    requires IsBreaking(lines, words, width) && NoRoom(lines, width)
    ensures lines == Greedy(words, width)
    decreases |words|
  {
    if lines != [] {
      var n := |lines| - 1;
      var others, last := lines[..n], lines[n];
      LastWord(Flat(others), last, words);
      assert lines == others + [last];
      if |last| == 1 {
        OnlyGreedyIsFull(words[..|words| - 1], width, others);
        PlacesNew(others, last, width);
      } else {
        ShorterBreaking(lines, words, width);
        var kept := last[..|last| - 1];
        FrontHasNoRoom(others, kept, last, width);
        OnlyGreedyIsFull(words[..|words| - 1], width, others + [kept]);
        PlacesBehind(others, kept, words[|words| - 1], width);
      }
    }
  }

  lemma {:induction false} PlacesNew(others: seq<Line>, last: Line, width: int)
    requires |last| == 1 && forall i | 0 <= i < |others| :: others[i] != []
    requires NoRoom(others + [last], width)
    ensures Placed(others, last[0], width) == others + [last]
  {
    var lines := others + [last];
    assert last == [last[0]];
    if others != [] {
      assert lines[|others| - 1] == others[|others| - 1] && lines[|others|] == last;
    }
  }

  lemma {:induction false} PlacesBehind(others: seq<Line>, kept: Line, word: string, width: int)
    requires |Joined(kept)| + 1 + |word| <= width
    ensures Placed(others + [kept], word, width) == others + [kept + [word]]
  {
  }

  lemma {:induction false} FrontHasNoRoom(others: seq<Line>, kept: Line, last: Line, width: int)
    requires (forall i | 0 <= i < |others| :: others[i] != []) && kept != [] && last != [] && kept[0] == last[0]
    requires NoRoom(others + [last], width)
    ensures NoRoom(others + [kept], width)
  {
    var lines, shorter := others + [last], others + [kept];
    forall i | 0 < i < |shorter|
      ensures |Joined(shorter[i - 1])| + 1 + |shorter[i][0]| > width
    {
      assert lines[i - 1] == shorter[i - 1] && lines[i][0] == shorter[i][0];
    }
  }

  /** No other way of breaking the words into lines that fit, or are one word, needs fewer lines. */
  lemma WrapIsOptimal(text: string, width: int, lines: seq<Line>)
    requires IsBreaking(lines, Words(text), width)
    ensures |Wrapped(text, width)| <= |lines|
  {
    GreedyStaysAhead(Words(text), width, lines);
  }

  /** Each line fits or is a single word of the text. */
  lemma LinesFit(text: string, width: int)
    ensures forall i | 0 <= i < |Wrapped(text, width)| ::
      |Wrapped(text, width)[i]| <= width || Wrapped(text, width)[i] in Words(text)
  {
    var words := Words(text);
    var greedy := Greedy(words, width);
    GreedyIsBreaking(words, width);
    forall i | 0 <= i < |greedy| && |greedy[i]| == 1
      ensures greedy[i][0] in words
    {
      LineInFlat(greedy, i);
    }
  }

  lemma {:induction false} LineInFlat(lines: seq<Line>, i: nat)
    requires i < |lines|
    ensures forall k | 0 <= k < |lines[i]| :: lines[i][k] in Flat(lines)
  {
    var front := lines[..|lines| - 1];
    if i < |front| {
      LineInFlat(front, i);
    }
  }

  lemma {:induction false} WordsOfJoined(texts: seq<string>)
    ensures Words(Joined(texts)) == WordsOf(texts)
  {
    if texts != [] {
      var front, last := texts[..|texts| - 1], texts[|texts| - 1];
      assert texts == front + [last];
      WordsOfConcat(front, [last]);
      WordsOfOne(last);
      if front != [] {
        WordsOfJoined(front);
        JoinWords(Joined(front), last);
      }
    }
  }

  predicate AllWords(words: seq<string>) { forall k | 0 <= k < |words| :: IsWord(words[k]) }

  lemma AllWordsParts(a: seq<string>, b: seq<string>)
    requires AllWords(a + b)
    ensures AllWords(a) && AllWords(b)
  {
    assert forall k | 0 <= k < |a| :: a[k] == (a + b)[k];
    assert forall k | 0 <= k < |b| :: b[k] == (a + b)[|a| + k];
  }

  lemma {:induction false} WordsOfWords(words: seq<string>)
    requires AllWords(words)
    ensures WordsOf(words) == words
  {
    if words != [] {
      WordsOfWord(words[0]);
      WordsOfWords(words[1..]);
    }
  }

  lemma {:induction false} WordsOfLines(lines: seq<Line>)
    requires AllWords(Flat(lines))
    ensures WordsOf(JoinedAll(lines)) == Flat(lines)
  {
    if lines == [] {
      assert JoinedAll(lines) == [];
    } else {
      var front, last := lines[..|lines| - 1], lines[|lines| - 1];
      AllWordsParts(Flat(front), last);
      WordsOfLines(front);
      WordsOfOneMoreLine(front, last);
      assert JoinedAll(lines) == JoinedAll(front) + [Joined(last)];
    }
  }

  lemma WordsOfOneMoreLine(lines: seq<Line>, line: Line)
    requires AllWords(line)
    ensures WordsOf(JoinedAll(lines) + [Joined(line)]) == WordsOf(JoinedAll(lines)) + line
  {
    WordsOfWords(line);
    WordsOfJoined(line);
    WordsOfConcat(JoinedAll(lines), [Joined(line)]);
    WordsOfOne(Joined(line));
  }

  lemma LastTokenHasNoWords(lines: seq<string>, token: seq<string>, width: int)
    ensures WordsOf(WithLastToken(lines, token, width)) == WordsOf(lines)
  {
    var all := WithLastToken(lines, token, width);
    if all != lines {
      var front, last := lines[..|lines| - 1], lines[|lines| - 1];
      assert lines == front + [last] && all == front + [last + " "];
      WordsOfConcat(front, [last]);
      WordsOfConcat(front, [last + " "]);
      WordsOfOne(last);
      WordsOfOne(last + " ");
      WordsConcat(last, " ");
      WordsOfSpace(" ");
    }
  }

  lemma FoldingKeepsWords(lines: seq<string>, maxLines: nat)
    ensures WordsOf(Folded(lines, maxLines)) == WordsOf(lines)
  {
    if 0 < maxLines < |lines| {
      var front, rest := lines[..maxLines - 1], lines[maxLines - 1..];
      assert lines == front + rest;
      WordsOfConcat(front, rest);
      WordsOfConcat(front, [Joined(rest)]);
      WordsOfOne(Joined(rest));
      WordsOfJoined(rest);
    }
  }

  /** Whatever the width and the limit, no word is lost, invented or moved. */
  lemma WrapKeepsWords(text: string, width: int, maxLines: nat)
    ensures WordsOf(Folded(Wrapped(text, width), maxLines)) == Words(text)
  {
    FoldingKeepsWords(Wrapped(text, width), maxLines);
    var greedy := Greedy(Words(text), width);
    LastTokenHasNoWords(JoinedAll(greedy), LastToken(text), width);
    GreedyIsBreaking(Words(text), width);
    WordsAreWords(text);
    WordsOfLines(greedy);
  }

  lemma {:induction false} JoinedIsLine(texts: seq<string>)
    requires texts != [] && forall i | 0 <= i < |texts| :: IsLine(texts[i])
    ensures IsLine(Joined(texts))
  {
    if |texts| > 1 {
      JoinedIsLine(texts[..|texts| - 1]);
    }
  }

  lemma WordIsLine(word: string)
    requires IsWord(word)
    ensures IsLine(word)
  {
    forall i | 0 <= i < |word|
      ensures word[i] != '\r' && word[i] != '\n'
    {
      assert !IsSpace(word[i]);
    }
  }

  lemma GreedyLines(lines: seq<Line>, words: seq<string>)
    requires Flat(lines) == words && AllWords(words) && forall i | 0 <= i < |lines| :: lines[i] != []
    ensures forall i | 0 <= i < |lines| :: IsLine(Joined(lines[i]))
  {
    forall i | 0 <= i < |lines|
      ensures IsLine(Joined(lines[i]))
    {
      LineInFlat(lines, i);
      forall k | 0 <= k < |lines[i]|
        ensures IsLine(lines[i][k])
      {
        WordIsLine(lines[i][k]);
      }
      JoinedIsLine(lines[i]);
    }
  }

  lemma FoldedLines(lines: seq<string>, maxLines: nat)
    requires lines != [] && forall i | 0 <= i < |lines| :: IsLine(lines[i])
    ensures var folded := Folded(lines, maxLines); folded != [] && forall i | 0 <= i < |folded| :: IsLine(folded[i])
  {
    if 0 < maxLines < |lines| {
      JoinedIsLine(lines[maxLines - 1..]);
    }
  }

  /** A text that is trimmed and not empty wraps to clean lines, at least one. */
  lemma WrapGivesLines(text: string, width: int, maxLines: nat)
    requires IsTrimmed(text) && text != ""
    ensures var lines := Folded(Wrapped(text, width), maxLines);
      lines != [] && forall i | 0 <= i < |lines| :: IsLine(lines[i])
  {
    var greedy := Greedy(Words(text), width);
    GreedyIsBreaking(Words(text), width);
    WordsAreWords(text);
    GreedyLines(greedy, Words(text));
    BlankHasNoWords(text);
    TrimOfTrimmed(text);
    FoldedLines(JoinedAll(greedy), maxLines);
  }
}
