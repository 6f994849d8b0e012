/** White space, words and decimal numbers, as the JavaScript and Go sources see them in strings. */
module Text {
  import opened Options

  /** The characters of \s, which are also those trim removes. */
  predicate IsSpace(c: char) {
    c == ' ' || '\t' <= c <= '\r' || c == '\U{00A0}' || c == '\U{1680}' || '\U{2000}' <= c <= '\U{200A}'
    || c == '\U{2028}' || c == '\U{2029}' || c == '\U{202F}' || c == '\U{205F}' || c == '\U{3000}' || c == '\U{FEFF}'
  }

  /** Length of the longest prefix without white space. */
  function WordLength(s: string): (n: nat)
    ensures n <= |s| && (forall i | 0 <= i < n :: !IsSpace(s[i])) && (n < |s| ==> IsSpace(s[n]))
  {
    if s == "" || IsSpace(s[0]) then 0 else 1 + WordLength(s[1..])
  }

  /** The maximal runs without white space, in order. */
  function Words(s: string): seq<string>
    decreases |s|
  {
    if s == "" then []
    else if IsSpace(s[0]) then Words(s[1..])
    else [s[..WordLength(s)]] + Words(s[WordLength(s)..])
  }

  lemma {:induction false} WordLengthOf(s: string, n: nat)
    requires n <= |s| && (forall i | 0 <= i < n :: !IsSpace(s[i])) && (n < |s| ==> IsSpace(s[n]))
    ensures WordLength(s) == n
  {
    if n > 0 {
      WordLengthOf(s[1..], n - 1);
    }
  }

  lemma FirstWord(s: string, n: nat)
    requires 0 < n <= |s| && (forall i | 0 <= i < n :: !IsSpace(s[i])) && (n < |s| ==> IsSpace(s[n]))
    ensures Words(s) == [s[..n]] + Words(s[n..])
  {
    WordLengthOf(s, n);
  }

  /** A word in front of a text that starts with white space, or of nothing. */
  lemma WordInFront(word: string, s: string)
    requires word != "" && (forall i | 0 <= i < |word| :: !IsSpace(word[i])) && (s != "" ==> IsSpace(s[0]))
    ensures Words(word + s) == [word] + Words(s)
  {
    var whole := word + s;
    FirstWord(whole, |word|);
    assert whole[..|word|] == word && whole[|word|..] == s;
  }

  /** Cutting a text next to white space keeps its words. */
  lemma {:induction false} WordsConcat(a: string, b: string)
    requires a == "" || b == "" || IsSpace(a[|a| - 1]) || IsSpace(b[0])
    ensures Words(a + b) == Words(a) + Words(b)
    decreases |a|
  {
    if a == "" {
      assert a + b == b;
    } else if IsSpace(a[0]) {
      assert (a + b)[1..] == a[1..] + b;
      WordsConcat(a[1..], b);
    } else {
      var n := WordLength(a);
      WordsConcat(a[n..], b);
      Split(a, b, n);
      WordInFrontOfBoth(a[..n], a[n..], b, Words(a[n..]), Words(b));
    }
  }

  lemma Split<T>(a: seq<T>, b: seq<T>, n: nat)
    requires n <= |a|
    ensures a == a[..n] + a[n..] && a + b == a[..n] + (a[n..] + b)
  {
  }

  lemma WordInFrontOfBoth(word: string, rest: string, b: string, ws: seq<string>, vs: seq<string>)
    requires word != "" && (forall i | 0 <= i < |word| :: !IsSpace(word[i]))
    requires (rest != "" ==> IsSpace(rest[0])) && (rest == "" && b != "" ==> IsSpace(b[0]))
    requires Words(rest) == ws && Words(rest + b) == ws + vs
    ensures Words(word + rest) == [word] + ws && Words(word + (rest + b)) == [word] + ws + vs
  {
    WordInFront(word, rest);
    WordInFront(word, rest + b);
    Regroup([word], ws, vs);
  }

  lemma Regroup<T>(a: seq<T>, b: seq<T>, c: seq<T>)
    ensures a + (b + c) == a + b + c
  {
  }

  /** The first position from i on that holds no white space. */
  function SkipSpace(s: string, i: nat): (j: nat)
    requires i <= |s|
    ensures i <= j <= |s| && (forall k | i <= k < j :: IsSpace(s[k])) && (j < |s| ==> !IsSpace(s[j]))
    decreases |s| - i
  {
    if i < |s| && IsSpace(s[i]) then SkipSpace(s, i + 1) else i
  }

  /** The end of what is left in front of position i without the white space at its end. */
  function BackOverSpace(s: string, i: nat): (j: nat)
    requires i <= |s|
    ensures j <= i && (forall k | j <= k < i :: IsSpace(s[k])) && (j > 0 ==> !IsSpace(s[j - 1]))
  {
    if i > 0 && IsSpace(s[i - 1]) then BackOverSpace(s, i - 1) else i
  }

  function Trim(s: string): (t: string)
    ensures IsTrimmed(t)
  {
    var i, j := SkipSpace(s, 0), BackOverSpace(s, |s|);
    if i < j then s[i..j] else ""
  }

  predicate IsTrimmed(s: string) { s != "" ==> !IsSpace(s[0]) && !IsSpace(s[|s| - 1]) }

  lemma TrimOfTrimmed(s: string)
    requires IsTrimmed(s)
    ensures Trim(s) == s
  {
  }

  lemma SliceOfSlice<T>(s: seq<T>, from: nat, to: nat, i: nat, j: nat)
    requires from <= to <= |s| && i <= j <= to - from
    ensures s[from..to][i..j] == s[from + i..from + j]
  {
    assert forall k | from <= k < to :: s[from..to][k - from] == s[k];
  }

  /** text[i..j] is what remains of text[from..to] without the white space around it. */
  predicate IsCore(text: string, from: nat, to: nat, i: nat, j: nat)
    requires to <= |text|
  {
    && from <= i <= j <= to
    && (forall k | from <= k < to && !(i <= k < j) :: IsSpace(text[k]))
    && (i < j ==> !IsSpace(text[i]) && !IsSpace(text[j - 1]))
  }

  lemma TrimIsCore(s: string) returns (i: nat, j: nat)
    ensures IsCore(s, 0, |s|, i, j) && Trim(s) == s[i..j]
  {
    i, j := SkipSpace(s, 0), BackOverSpace(s, |s|);
    if i >= j {
      i, j := |s|, |s|;
    }
  }

  lemma CoreOfSlice(text: string, from: nat, to: nat, i: nat, j: nat)
    requires from <= to <= |text| && IsCore(text[from..to], 0, to - from, i, j)
    ensures IsCore(text, from, to, from + i, from + j)
  {
    assert forall k | from <= k < to :: text[k] == text[from..to][k - from];
  }

  /** Where the trimmed slice lies in the text. */
  lemma TrimOfSlice(text: string, from: nat, to: nat) returns (i: nat, j: nat)
    requires from <= to <= |text|
    ensures IsCore(text, from, to, i, j) && Trim(text[from..to]) == text[i..j]
  {
    i, j := TrimIsCore(text[from..to]);
    CoreOfSlice(text, from, to, i, j);
    SliceOfSlice(text, from, to, i, j);
    i, j := from + i, from + j;
  }

  lemma {:induction false} WordsOfSpace(s: string)
    requires forall i | 0 <= i < |s| :: IsSpace(s[i])
    ensures Words(s) == []
  {
    if s != "" {
      WordsOfSpace(s[1..]);
    }
  }

  lemma WordsOfTrim(s: string)
    ensures Words(Trim(s)) == Words(s)
  {
    var i, j := TrimIsCore(s);
    ThreeParts(s, i, j);
    WordsInSpace(s, s[..i], Trim(s), s[j..]);
  }

  lemma ThreeParts<T>(s: seq<T>, i: nat, j: nat)
    requires i <= j <= |s|
    ensures s == s[..i] + (s[i..j] + s[j..])
  {
  }

  lemma WordsInSpace(s: string, before: string, kept: string, after: string)
    requires s == before + (kept + after)
    requires forall k | 0 <= k < |before| :: IsSpace(before[k])
    requires forall k | 0 <= k < |after| :: IsSpace(after[k])
    ensures Words(s) == Words(kept)
  {
    WordsOfSpace(before);
    WordsOfSpace(after);
    WordsConcat(before, kept + after);
    WordsConcat(kept, after);
  }

  /** A text is blank exactly when it has no words. */
  lemma BlankHasNoWords(s: string)
    ensures Words(s) == [] <==> Trim(s) == ""
  {
    WordsOfTrim(s);
  }

  lemma JoinWords(a: string, b: string)
    ensures Words(a + " " + b) == Words(a) + Words(b)
  {
    WordsConcat(a + " ", b);
    WordsConcat(a, " ");
    WordsOfSpace(" ");
    assert Words(a + " ") == Words(a);
  }

  predicate IsWord(s: string) { s != "" && forall i | 0 <= i < |s| :: !IsSpace(s[i]) }

  lemma {:induction false} WordsAreWords(s: string)
    ensures forall k | 0 <= k < |Words(s)| :: IsWord(Words(s)[k])
    decreases |s|
  {
    if s != "" {
      if IsSpace(s[0]) {
        WordsAreWords(s[1..]);
      } else {
        WordsAreWords(s[WordLength(s)..]);
      }
    }
  }

  lemma WordsOfWord(s: string)
    requires IsWord(s)
    ensures Words(s) == [s]
  {
    WordInFront(s, "");
    assert s + "" == s;
  }

  /** text.split(/\s+/): text that starts or ends with white space gives an empty token there. */
  function Tokens(text: string): (tokens: seq<string>)
    ensures tokens != []
    decreases |text|
  {
    var n := WordLength(text);
    if n == |text| then [text] else [text[..n]] + Tokens(text[SkipSpace(text, n)..])
  }

  function FirstToken(text: string): seq<string> { if text == "" || IsSpace(text[0]) then [""] else [] }

  function LastToken(text: string): seq<string> { if text != "" && IsSpace(text[|text| - 1]) then [""] else [] }

  lemma {:induction false} TokensOf(text: string)
    ensures Tokens(text) == FirstToken(text) + Words(text) + LastToken(text)
    decreases |text|
  {
    var n := WordLength(text);
    if n == |text| {
      if text != "" {
        WordsOfWord(text);
      }
    } else {
      var k := SkipSpace(text, n);
      TokensOf(text[k..]);
      FirstWordAndRest(text, n, k);
      EdgeTokens(text, n, k);
      Rebracket(FirstToken(text), if n == 0 then [] else [text[..n]], Words(text[k..]), LastToken(text));
    }
  }

  lemma FirstWordAndRest(text: string, n: nat, k: nat)
    requires n == WordLength(text) < |text| && k == SkipSpace(text, n)
    ensures Words(text) == (if n == 0 then [] else [text[..n]]) + Words(text[k..])
  {
    ThreeParts(text, n, k);
    WordsAroundSpace(text, text[..n], text[n..k], text[k..]);
  }

  lemma {:induction false} EdgeTokens(text: string, n: nat, k: nat)
    requires n == WordLength(text) < |text| && k == SkipSpace(text, n)
    ensures [text[..n]] == FirstToken(text) + if n == 0 then [] else [text[..n]]
    ensures FirstToken(text[k..]) + Words(text[k..]) + LastToken(text[k..]) == Words(text[k..]) + LastToken(text)
  {
    assert k > n;
    if k == |text| {
      assert text[k..] == "";
    } else {
      var rest := text[k..];
      assert rest[0] == text[k] && rest[|rest| - 1] == text[|text| - 1];
    }
  }

  lemma Rebracket<T>(a: seq<T>, b: seq<T>, c: seq<T>, d: seq<T>)
    ensures (a + b) + (c + d) == a + (b + c) + d
  {
  }

  lemma {:induction false} WordsAroundSpace(text: string, word: string, space: string, rest: string)
    requires text == word + (space + rest) && space != ""
    requires forall i | 0 <= i < |word| :: !IsSpace(word[i])
    requires forall i | 0 <= i < |space| :: IsSpace(space[i])
    ensures Words(text) == (if word == "" then [] else [word]) + Words(rest)
  {
    WordsConcat(word, space + rest);
    WordsConcat(space, rest);
    WordsOfSpace(space);
    if word != "" {
      WordsOfWord(word);
    }
  }

  /** The words of several texts, in order. */
  function WordsOf(texts: seq<string>): seq<string> {
    if texts == [] then [] else Words(texts[0]) + WordsOf(texts[1..])
  }

  lemma {:induction false} WordsOfConcat(a: seq<string>, b: seq<string>)
    ensures WordsOf(a + b) == WordsOf(a) + WordsOf(b)
  {
    if a == [] {
      assert a + b == b;
    } else {
      assert (a + b)[1..] == a[1..] + b;
      WordsOfConcat(a[1..], b);
      Regroup(Words(a[0]), WordsOf(a[1..]), WordsOf(b));
    }
  }

  lemma WordsOfOne(text: string)
    ensures WordsOf([text]) == Words(text)
  {
    assert WordsOf([]) == [];
  }

  predicate IsDigit(c: char) { '0' <= c <= '9' }

  function Value(c: char): nat
    requires IsDigit(c)
  {
    c as int - '0' as int
  }

  function Digit(d: nat): (c: char)
    requires d < 10
    ensures IsDigit(c) && Value(c) == d
  {
    ('0' as int + d) as char
  }

  predicate IsNumeral(s: string) { s != "" && forall i | 0 <= i < |s| :: IsDigit(s[i]) }

  /** String(n) */
  function Decimal(n: nat): (s: string)
    ensures IsNumeral(s)
  {
    if n < 10 then [Digit(n)] else Decimal(n / 10) + [Digit(n % 10)]
  }

  /** Number(s) */
  function Number(s: string): nat
    requires IsNumeral(s)
  {
    var last := |s| - 1;
    if last == 0 then Value(s[0]) else 10 * Number(s[..last]) + Value(s[last])
  }

  lemma {:induction false} NumberOfDecimal(n: nat)
    ensures Number(Decimal(n)) == n
  {
    if n >= 10 {
      NumberOfDecimal(n / 10);
      var s := Decimal(n / 10) + [Digit(n % 10)];
      assert s[..|s| - 1] == Decimal(n / 10);
    }
  }

  /** Length of the run of digits at the start. */
  function DigitsLength(s: string): (n: nat)
    ensures n <= |s| && (forall i | 0 <= i < n :: IsDigit(s[i])) && (n < |s| ==> !IsDigit(s[n]))
  {
    if s == "" || !IsDigit(s[0]) then 0 else 1 + DigitsLength(s[1..])
  }

  /** The first number that a text mentions. */
  function FirstNumber(s: string): Option<nat>
    decreases |s|
  {
    if s == "" then None
    else if IsDigit(s[0]) then Some(Number(s[..DigitsLength(s)]))
    else FirstNumber(s[1..])
  }

  lemma {:induction false} FirstNumberBehind(before: string, s: string)
    requires forall i | 0 <= i < |before| :: !IsDigit(before[i])
    ensures FirstNumber(before + s) == FirstNumber(s)
  {
    if before == "" {
      assert before + s == s;
    } else {
      assert (before + s)[1..] == before[1..] + s;
      FirstNumberBehind(before[1..], s);
    }
  }

  lemma FirstNumberOf(digits: string, behind: string)
    requires IsNumeral(digits) && (behind != "" ==> !IsDigit(behind[0]))
    ensures FirstNumber(digits + behind) == Some(Number(digits))
  {
    DigitsLengthOf(digits, behind);
    assert (digits + behind)[..|digits|] == digits;
  }

  lemma {:induction false} DigitsLengthOf(digits: string, behind: string)
    requires (forall i | 0 <= i < |digits| :: IsDigit(digits[i])) && (behind != "" ==> !IsDigit(behind[0]))
    ensures DigitsLength(digits + behind) == |digits|
  {
    if digits == "" {
      assert digits + behind == behind;
    } else {
      assert (digits + behind)[1..] == digits[1..] + behind;
      DigitsLengthOf(digits[1..], behind);
    }
  }

  /** A line of output: not empty, no white space around it and no line break in it. */
  predicate IsLine(s: string) { s != "" && IsTrimmed(s) && forall i | 0 <= i < |s| :: s[i] != '\r' && s[i] != '\n' }
}
