/**
 * SubRip output and the repository's own reader of it: apps/web/src/server/export/srt.ts,
 * formatTimestamp in cues.ts and the export check in scripts/smoke.mjs.
 */
module Srt {
  import opened Cues
  import opened Options
  import opened Text
  import opened Wrapping

  const LINE_WIDTH := 42
  const MAX_LINES := 2

  // formatTimestamp

  /** s.padStart(length, "0") */
  function PadStart(s: string, length: nat): string
    decreases length - |s|
  {
    if |s| >= length then s else PadStart("0" + s, length)
  }

  /** HH:MM:SS, the separator and milliseconds. */
  function FormatTimestamp(ms: nat, separator: char): string {
    PadStart(Decimal(ms / 3_600_000), 2) + ":" + PadStart(Decimal(ms / 60_000 % 60), 2) + ":" +
    PadStart(Decimal(ms / 1_000 % 60), 2) + [separator] + PadStart(Decimal(ms % 1_000), 3)
  }

  // toSrt

  function Join(parts: seq<string>, separator: string): string {
    if parts == [] then ""
    else if |parts| == 1 then parts[0]
    else parts[0] + separator + Join(parts[1..], separator)
  }

  predicate HasTimes(cue: Cue) { 0 <= cue.startMs && 0 <= cue.endMs }

  predicate AllHaveTimes(cues: seq<Cue>) { forall i {:trigger cues[i]} | 0 <= i < |cues| :: HasTimes(cues[i]) }

  function Stamp(cue: Cue): string
    requires HasTimes(cue)
  {
    FormatTimestamp(cue.startMs, ',') + " --> " + FormatTimestamp(cue.endMs, ',')
  }

  function Block(cue: Cue, i: nat): string
    requires HasTimes(cue)
  {
    Decimal(i + 1) + "\n" + Stamp(cue) + "\n" + Join(Folded(Wrapped(cue.text, LINE_WIDTH), MAX_LINES), "\n")
  }

  function Blocks(cues: seq<Cue>): (blocks: seq<string>)
    requires AllHaveTimes(cues)
  {
    seq(|cues|, i requires 0 <= i < |cues| => Block(cues[i], i))
  }

  function ToSrt(cues: seq<Cue>): string
    requires AllHaveTimes(cues)
  {
    if cues == [] then "" else Join(Blocks(cues), "\n\n") + "\n"
  }

  // The reader

  datatype Separator = LineBreak | BlankLine

  /** Length of \r?\n at the start of s, 0 if it is not there. */
  function BreakLength(s: string): (n: nat)
    ensures n <= |s|
  {
    if s == "" then 0
    else if s[0] == '\n' then 1
    else if |s| > 1 && s[0] == '\r' && s[1] == '\n' then 2
    else 0
  }

  /** The same for /\r?\n/ or /\r?\n\r?\n/. */
  function SeparatorLength(s: string, separator: Separator): (n: nat)
    ensures n <= |s|
  {
    var first := BreakLength(s);
    var second := BreakLength(s[first..]);
    if separator.LineBreak? || first == 0 then first
    else if second == 0 then 0
    else first + second
  }

  /** s.split(separator) */
  function SplitBy(s: string, separator: Separator): (parts: seq<string>)
    ensures parts != []
    decreases |s|
  {
    if s == "" then [""] else
    var n := SeparatorLength(s, separator);
    if n > 0 then [""] + SplitBy(s[n..], separator) else
    var rest := SplitBy(s[1..], separator);
    [[s[0]] + rest[0]] + rest[1..]
  }

  /** \d{2}:\d{2}:\d{2},\d{3} */
  predicate IsTime(s: string)
    requires |s| == 12
  {
    && IsDigit(s[0]) && IsDigit(s[1]) && s[2] == ':' && IsDigit(s[3]) && IsDigit(s[4]) && s[5] == ':'
    && IsDigit(s[6]) && IsDigit(s[7]) && s[8] == ',' && IsDigit(s[9]) && IsDigit(s[10]) && IsDigit(s[11])
  }

  /** A time in milliseconds. */
  function ReadTime(s: string): Option<nat>
    requires |s| == 12
  {
    if !IsTime(s) then None else
    var h, m := 10 * Value(s[0]) + Value(s[1]), 10 * Value(s[3]) + Value(s[4]);
    var seconds, ms := 10 * Value(s[6]) + Value(s[7]), 100 * Value(s[9]) + 10 * Value(s[10]) + Value(s[11]);
    Some(((h * 60 + m) * 60 + seconds) * 1_000 + ms)
  }

  function ReadStamp(line: string): Option<(nat, nat)> {
    if |line| == 29 && line[12..17] == " --> " && ReadTime(line[..12]).Some? && ReadTime(line[17..]).Some?
    then Some((ReadTime(line[..12]).value, ReadTime(line[17..]).value))
    else None
  }

  /** What is read from a block: the line in front of the times, the times and the words behind them. */
  datatype Entry = Entry(number: string, startMs: nat, endMs: nat, words: seq<string>)

  function ReadBlock(block: string): Option<Entry> {
    var lines := SplitBy(block, LineBreak);
    if |lines| < 3 then None else
    match ReadStamp(lines[1])
    case None => None
    case Some((startMs, endMs)) => Some(Entry(lines[0], startMs, endMs, WordsOf(lines[2..])))
  }

  /** body.trim() === "" ? [] : body.trim().split(/\r?\n\r?\n/) */
  function SrtBlocks(body: string): seq<string> {
    if Trim(body) == "" then [] else SplitBy(Trim(body), BlankLine)
  }

  // Timestamps

  const HUNDRED_HOURS := 360_000_000

  lemma TwoDigits(n: nat)
    requires n < 100
    ensures PadStart(Decimal(n), 2) == [Digit(n / 10), Digit(n % 10)]
  {
    if n < 10 {
      assert PadStart("0" + Decimal(n), 2) == "0" + Decimal(n);
    } else {
      assert Decimal(n / 10) == [Digit(n / 10)];
    }
  }

  lemma ThreeDigits(n: nat)
    requires n < 1000
    ensures PadStart(Decimal(n), 3) == [Digit(n / 100), Digit(n / 10 % 10), Digit(n % 10)]
  {
    if n < 100 {
      TwoDigits(n);
      PadTwice(Decimal(n));
    } else {
      assert Decimal(n / 10 / 10) == [Digit(n / 100)];
      assert Decimal(n / 10) == Decimal(n / 10 / 10) + [Digit(n / 10 % 10)];
    }
  }

  lemma PadTwice(s: string)
    requires 0 < |s| <= 2
    ensures PadStart(s, 3) == "0" + PadStart(s, 2)
  {
    if |s| == 1 {
      assert PadStart("0" + s, 2) == "0" + s;
      assert PadStart("0" + ("0" + s), 3) == "0" + ("0" + s);
    } else {
      assert PadStart("0" + s, 3) == "0" + s;
    }
  }

  /** The twelve characters of a timestamp below a hundred hours. */
  function TimeChars(h: nat, m: nat, s: nat, ms: nat): string
    requires h < 100 && m < 100 && s < 100 && ms < 1000
  {
    [Digit(h / 10), Digit(h % 10), ':', Digit(m / 10), Digit(m % 10), ':', Digit(s / 10), Digit(s % 10), ',',
     Digit(ms / 100), Digit(ms / 10 % 10), Digit(ms % 10)]
  }

  lemma TimestampChars(ms: nat)
    requires ms < HUNDRED_HOURS
    ensures FormatTimestamp(ms, ',') == TimeChars(ms / 3_600_000, ms / 60_000 % 60, ms / 1_000 % 60, ms % 1_000)
  {
    TwoDigits(ms / 3_600_000);
    TwoDigits(ms / 60_000 % 60);
    TwoDigits(ms / 1_000 % 60);
    ThreeDigits(ms % 1_000);
  }

  lemma TimeCharsAreRead(h: nat, m: nat, s: nat, ms: nat)
    requires h < 100 && m < 100 && s < 100 && ms < 1000
    ensures |TimeChars(h, m, s, ms)| == 12
    ensures ReadTime(TimeChars(h, m, s, ms)) == Some(((h * 60 + m) * 60 + s) * 1_000 + ms)
  {
    var chars := TimeChars(h, m, s, ms);
    assert IsTime(chars);
    assert 10 * Value(chars[0]) + Value(chars[1]) == h && 10 * Value(chars[3]) + Value(chars[4]) == m;
    assert 10 * Value(chars[6]) + Value(chars[7]) == s;
    assert 100 * Value(chars[9]) + 10 * Value(chars[10]) + Value(chars[11]) == ms;
  }

  lemma TimeParts(ms: nat)
    ensures ((ms / 3_600_000 * 60 + ms / 60_000 % 60) * 60 + ms / 1_000 % 60) * 1_000 + ms % 1_000 == ms
  {
    assert ms / 60_000 / 60 == ms / 3_600_000;
    assert ms / 1_000 / 60 == ms / 60_000;
  }

  /** Below a hundred hours the reader gets back the time that was printed. */
  lemma TimestampRoundTrip(ms: nat)
    requires ms < HUNDRED_HOURS
    ensures |FormatTimestamp(ms, ',')| == 12 && ReadTime(FormatTimestamp(ms, ',')) == Some(ms)
    ensures IsLine(FormatTimestamp(ms, ','))
  {
    TimestampChars(ms);
    TimeCharsAreRead(ms / 3_600_000, ms / 60_000 % 60, ms / 1_000 % 60, ms % 1_000);
    TimeParts(ms);
    TimeCharsAreLine(ms / 3_600_000, ms / 60_000 % 60, ms / 1_000 % 60, ms % 1_000);
  }

  lemma TimeCharsAreLine(h: nat, m: nat, s: nat, ms: nat)
    requires h < 100 && m < 100 && s < 100 && ms < 1000
    ensures IsLine(TimeChars(h, m, s, ms))
  {
    var chars := TimeChars(h, m, s, ms);
    forall i | 0 <= i < 12
      ensures chars[i] != '\r' && chars[i] != '\n'
    {
      assert IsDigit(chars[i]) || chars[i] == ':' || chars[i] == ',';
    }
  }

  predicate InRange(cue: Cue) { 0 <= cue.startMs < HUNDRED_HOURS && 0 <= cue.endMs < HUNDRED_HOURS }

  lemma StampRoundTrip(cue: Cue)
    requires InRange(cue)
    ensures IsLine(Stamp(cue)) && ReadStamp(Stamp(cue)) == Some((cue.startMs, cue.endMs))
  {
    TimestampRoundTrip(cue.startMs);
    TimestampRoundTrip(cue.endMs);
    ThreePieces(FormatTimestamp(cue.startMs, ','), " --> ", FormatTimestamp(cue.endMs, ','));
  }

  lemma {:induction false} PadStartLength(s: string, length: nat)
    ensures |PadStart(s, length)| == if |s| >= length then |s| else length
    decreases length - |s|
  {
    if |s| < length {
      PadStartLength("0" + s, length);
    }
  }

  /** From a hundred hours on the hours take three digits or more. */
  lemma TimestampLength(ms: nat)
    ensures |FormatTimestamp(ms, ',')| >= 12
    ensures |FormatTimestamp(ms, ',')| == 12 <==> ms < HUNDRED_HOURS
  {
    var h := ms / 3_600_000;
    PadStartLength(Decimal(h), 2);
    if h < 100 {
      TimestampRoundTrip(ms);
    } else {
      assert |Decimal(h / 10 / 10)| >= 1 && |Decimal(h / 10)| >= 2 && |Decimal(h)| >= 3;
      PadStartLength(Decimal(ms / 60_000 % 60), 2);
      PadStartLength(Decimal(ms / 1_000 % 60), 2);
      PadStartLength(Decimal(ms % 1_000), 3);
    }
  }

  /** The reader accepts the line with the times exactly below a hundred hours. */
  lemma ReadableIff(cue: Cue)
    requires HasTimes(cue)
    ensures ReadStamp(Stamp(cue)).Some? <==> InRange(cue)
  {
    TimestampLength(cue.startMs);
    TimestampLength(cue.endMs);
    if InRange(cue) {
      StampRoundTrip(cue);
    }
  }

  lemma ThreePieces(a: string, b: string, c: string)
    requires IsLine(a) && IsLine(c) && forall i | 0 <= i < |b| :: b[i] != '\r' && b[i] != '\n'
    ensures var all := a + b + c;
      IsLine(all) && all[..|a|] == a && all[|a|..|a| + |b|] == b && all[|a| + |b|..] == c
  {
  }

  // Splitting what was joined

  function Mark(separator: Separator): string { if separator.LineBreak? then "\n" else "\n\n" }

  /** No separator starts inside s, whatever follows it. */
  predicate Unbroken(s: string, separator: Separator) {
    && (forall i | 0 <= i < |s| :: s[i] != '\r' && (separator.LineBreak? ==> s[i] != '\n'))
    && (forall i | 0 <= i < |s| - 1 :: s[i] == '\n' ==> s[i + 1] != '\n')
    && (s != "" ==> s[|s| - 1] != '\n')
  }

  lemma NoSeparator(s: string, rest: string, separator: Separator)
    requires s != "" && Unbroken(s, separator)
    ensures SeparatorLength(s + rest, separator) == 0
  {
    var all := s + rest;
    assert all[0] == s[0];
    if s[0] == '\n' {
      assert all[1] == s[1];
      assert all[1..][0] == all[1];
    }
  }

  lemma MarkIsSeparator(rest: string, separator: Separator)
    ensures SeparatorLength(Mark(separator) + rest, separator) == |Mark(separator)|
  {
    var all := Mark(separator) + rest;
    assert all[0] == '\n';
    if separator.BlankLine? {
      assert all[1..][0] == '\n';
    }
  }

  lemma UnbrokenTail(s: string, separator: Separator)
    requires s != "" && Unbroken(s, separator)
    ensures Unbroken(s[1..], separator)
  {
    var t := s[1..];
    assert forall i | 0 <= i < |t| :: t[i] == s[i + 1];
  }

  lemma {:induction false} SplitOffFirst(s: string, rest: string, separator: Separator)
    requires Unbroken(s, separator)
    ensures SplitBy(s + (Mark(separator) + rest), separator) == [s] + SplitBy(rest, separator)
  {
    var mark := Mark(separator);
    var all := s + (mark + rest);
    if s == "" {
      MarkIsSeparator(rest, separator);
      assert all == mark + rest;
      assert (mark + rest)[|mark|..] == rest;
    } else {
      NoSeparator(s, mark + rest, separator);
      UnbrokenTail(s, separator);
      SplitOffFirst(s[1..], rest, separator);
      Behead(s, mark + rest);
    }
  }

  lemma Behead(s: string, rest: string)
    requires s != ""
    ensures (s + rest)[0] == s[0] && (s + rest)[1..] == s[1..] + rest && [s[0]] + s[1..] == s
  {
  }

  lemma {:induction false} SplitOffLast(s: string, separator: Separator)
    requires Unbroken(s, separator)
    ensures SplitBy(s, separator) == [s]
  {
    if s != "" {
      NoSeparator(s, "", separator);
      assert s + "" == s;
      UnbrokenTail(s, separator);
      SplitOffLast(s[1..], separator);
      assert [s[0]] + s[1..] == s;
    }
  }

  /** Splitting undoes joining. */
  lemma {:induction false} SplitOfJoin(parts: seq<string>, separator: Separator)
    requires parts != [] && forall i | 0 <= i < |parts| :: Unbroken(parts[i], separator)
    ensures SplitBy(Join(parts, Mark(separator)), separator) == parts
  {
    if |parts| == 1 {
      SplitOffLast(parts[0], separator);
    } else {
      var rest := Join(parts[1..], Mark(separator));
      SplitOfJoin(parts[1..], separator);
      SplitOffFirst(parts[0], rest, separator);
      Regroup(parts[0], Mark(separator), rest);
      assert [parts[0]] + parts[1..] == parts;
    }
  }

  lemma {:induction false} JoinIsUnbroken(lines: seq<string>)
    requires lines != [] && forall i | 0 <= i < |lines| :: IsLine(lines[i])
    ensures var all := Join(lines, "\n");
      all != "" && IsTrimmed(all) && all[0] != '\n' && Unbroken(all, BlankLine)
  {
    if |lines| > 1 {
      JoinIsUnbroken(lines[1..]);
      OneMoreLine(lines[0], Join(lines[1..], "\n"));
    }
  }

  lemma OneMoreLine(line: string, rest: string)
    requires IsLine(line) && rest != "" && IsTrimmed(rest) && rest[0] != '\n' && Unbroken(rest, BlankLine)
    ensures var all := line + "\n" + rest;
      all != "" && IsTrimmed(all) && all[0] != '\n' && Unbroken(all, BlankLine)
  {
    var all, n := line + "\n" + rest, |line| + 1;
    forall i | 0 <= i < |all|
      ensures all[i] == if i < n - 1 then line[i] else if i == n - 1 then '\n' else rest[i - n]
    {
    }
  }

  // Blocks

  lemma NumberIsLine(s: string)
    requires IsNumeral(s)
    ensures IsLine(s)
  {
    forall i | 0 <= i < |s|
      ensures s[i] != '\r' && s[i] != '\n' && !IsSpace(s[i])
    {
      assert IsDigit(s[i]);
    }
  }

  /** The text of a cue: trimmed and not empty. */
  predicate Printable(cue: Cue) { InRange(cue) && IsTrimmed(cue.text) && cue.text != "" }

  predicate AllPrintable(cues: seq<Cue>) { forall i {:trigger cues[i]} | 0 <= i < |cues| :: Printable(cues[i]) }

  function BlockLines(cue: Cue, i: nat): seq<string>
    requires HasTimes(cue)
  {
    [Decimal(i + 1), Stamp(cue)] + Folded(Wrapped(cue.text, LINE_WIDTH), MAX_LINES)
  }

  lemma BlockIsJoined(cue: Cue, i: nat)
    requires Printable(cue)
    ensures Block(cue, i) == Join(BlockLines(cue, i), "\n")
    ensures |BlockLines(cue, i)| >= 3 && forall k | 0 <= k < |BlockLines(cue, i)| :: IsLine(BlockLines(cue, i)[k])
  {
    var wrapped := Folded(Wrapped(cue.text, LINE_WIDTH), MAX_LINES);
    WrapGivesLines(cue.text, LINE_WIDTH, MAX_LINES);
    NumberIsLine(Decimal(i + 1));
    StampRoundTrip(cue);
    TwoInFront(Decimal(i + 1), Stamp(cue), wrapped);
  }

  lemma TwoInFront(a: string, b: string, lines: seq<string>)
    requires lines != []
    ensures Join([a, b] + lines, "\n") == a + "\n" + b + "\n" + Join(lines, "\n")
  {
    var all := [a, b] + lines;
    assert all[1..] == [b] + lines && all[1..][1..] == lines;
    Regroup(a + "\n", b + "\n", Join(lines, "\n"));
    Regroup(a + "\n", b, "\n");
  }

  /** A block read back gives the cue's number, its times and its words. */
  lemma BlockRoundTrip(cue: Cue, i: nat)
    requires Printable(cue)
    ensures ReadBlock(Block(cue, i)) == Some(Entry(Decimal(i + 1), cue.startMs, cue.endMs, Words(cue.text)))
  {
    var lines := BlockLines(cue, i);
    BlockIsJoined(cue, i);
    SplitOfJoin(lines, LineBreak);
    StampRoundTrip(cue);
    WrapKeepsWords(cue.text, LINE_WIDTH, MAX_LINES);
    assert lines[2..] == Folded(Wrapped(cue.text, LINE_WIDTH), MAX_LINES);
  }

  lemma {:induction false} JoinIsTrimmed(parts: seq<string>, separator: string)
    requires parts != [] && forall i | 0 <= i < |parts| :: parts[i] != "" && IsTrimmed(parts[i])
    ensures Join(parts, separator) != "" && IsTrimmed(Join(parts, separator))
  {
    if |parts| > 1 {
      JoinIsTrimmed(parts[1..], separator);
    }
  }

  lemma TrimOfLine(s: string)
    requires s != "" && IsTrimmed(s)
    ensures Trim(s + "\n") == s
  {
    var all := s + "\n";
    assert all[0] == s[0] && all[|s| - 1] == s[|s| - 1] && all[|s|] == '\n';
    assert SkipSpace(all, 0) == 0;
    assert BackOverSpace(all, |s|) == |s|;
    assert BackOverSpace(all, |all|) == |s|;
  }

  /**
   * The reader recovers the cues: one block for each, holding its number, its two times and its words in order.
   */
  lemma SrtRoundTrip(cues: seq<Cue>)
    requires AllPrintable(cues)
    ensures AllHaveTimes(cues) && |SrtBlocks(ToSrt(cues))| == |cues|
    ensures forall i | 0 <= i < |cues| ::
      ReadBlock(SrtBlocks(ToSrt(cues))[i]) ==
      Some(Entry(Decimal(i + 1), cues[i].startMs, cues[i].endMs, Words(cues[i].text)))
  {
    var blocks := Blocks(cues);
    if cues != [] {
      forall i | 0 <= i < |cues|
        ensures Unbroken(blocks[i], BlankLine) && blocks[i] != "" && IsTrimmed(blocks[i])
      {
        BlockIsJoined(cues[i], i);
        JoinIsUnbroken(BlockLines(cues[i], i));
      }
      JoinIsTrimmed(blocks, "\n\n");
      TrimOfLine(Join(blocks, "\n\n"));
      SplitOfJoin(blocks, BlankLine);
      forall i | 0 <= i < |cues|
        ensures ReadBlock(blocks[i]) == Some(Entry(Decimal(i + 1), cues[i].startMs, cues[i].endMs, Words(cues[i].text)))
      {
        BlockRoundTrip(cues[i], i);
      }
    }
  }
}
