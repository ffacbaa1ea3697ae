/** SubRip and WebVTT text: timestamps, cue blocks, and that parsing undoes rendering. */
module Subtitles {
  import opened Machine
  import opened Text

  const ARROW := "-->"
  const BLANK_LINE := "\n\n"
  const HEADER := "WEBVTT\n\n"

  datatype Cue = Cue(start: u64, end: u64, text: string)

  // ----- timestamps -----

  function Clock(hours: nat, minutes: nat, seconds: nat, millis: nat): string {
    Padded(Decimal(hours), 2) + ":" + Padded(Decimal(minutes), 2) + ":" +
    (Padded(Decimal(seconds), 2) + "." + Padded(Decimal(millis), 3))
  }

  function FormatTimestamp(ms: u64): string {
    Clock(ms / 1000 / 60 / 60, ms / 1000 / 60 % 60, ms / 1000 % 60, ms % 1000)
  }

  function Replaced(s: string, from: char, to: char): (r: string)
    ensures |r| == |s| && forall i :: 0 <= i < |s| ==> r[i] == if s[i] == from then to else s[i]
  {
    if s == "" then "" else [if s[0] == from then to else s[0]] + Replaced(s[1..], from, to)
  }

  lemma {:induction false} NothingReplaced(s: string, from: char, to: char)
    requires Lacks(s, from)
    ensures Replaced(s, from, to) == s
  {
  }

  /** Up to three digits, read as if zeros followed. */
  function ParseMillis(raw: string): Option<nat> {
    var digits := raw[..Min(3, |raw|)];
    if digits == "" || !AllDigits(digits) then None
    else Some(DigitsValue(digits) * TenTo(3 - |digits|))
  }

  function ParseSeconds(raw: string, minutes: nat): Option<u64> {
    match FindStr(raw, ".")
    case None => None
    case Some(dot) =>
      match ParseU64(raw[..dot])
      case None => None
      case Some(seconds) =>
        match ParseMillis(raw[dot + 1..])
        case None => None
        case Some(millis) =>
          if seconds >= 60 || (minutes * 60 + seconds) * 1000 + millis > U64_MAX then None
          else Some((minutes * 60 + seconds) * 1000 + millis)
  }

  function ParseTimestamp(raw: string): Option<u64> {
    var parts := Split(Replaced(raw, ',', '.'), ':');
    if |parts| != 3 || ParseU64(parts[0]).None? || ParseU64(parts[1]).None? || ParseU64(parts[1]).value >= 60 then None
    else ParseSeconds(parts[2], ParseU64(parts[0]).value * 60 + ParseU64(parts[1]).value)
  }

  predicate ClockChar(c: char) { IsDigit(c) || c == ':' || c == '.' }

  predicate ClockText(s: string) { forall i :: 0 <= i < |s| ==> ClockChar(s[i]) }

  lemma {:induction false} ClockIsClockText(hours: nat, minutes: nat, seconds: nat, millis: nat)
    ensures var s := Clock(hours, minutes, seconds, millis);
            s != "" && ClockText(s) && IsDigit(s[0]) && IsDigit(s[|s| - 1])
  {
    hide Decimal;
  }

  lemma {:induction false} ClockSplits(hours: nat, minutes: nat, seconds: nat, millis: nat)
    ensures Split(Clock(hours, minutes, seconds, millis), ':') ==
            [Padded(Decimal(hours), 2), Padded(Decimal(minutes), 2),
             Padded(Decimal(seconds), 2) + "." + Padded(Decimal(millis), 3)]
  {
    hide Decimal, Split;
    var h, m := Padded(Decimal(hours), 2), Padded(Decimal(minutes), 2);
    var s := Padded(Decimal(seconds), 2) + "." + Padded(Decimal(millis), 3);
    Regroup(h + ":", m + ":", s);
    assert h + ":" + m + ":" + s == h + ":" + (m + ":" + s);
    SplitFirst(h, ':', m + ":" + s);
    SplitFirst(m, ':', s);
    SplitWhole(s, ':');
    assert [h] + ([m] + [s]) == [h, m, s];
  }

  lemma {:induction false} MillisRoundTrip(millis: nat)
    requires millis < 1000
    ensures ParseMillis(Padded(Decimal(millis), 3)) == Some(millis)
  {
    var s := Padded(Decimal(millis), 3);
    DecimalLength(millis, 3, TenTo(3));
    assert |s| == 3 && s[..3] == s;
    DecimalValue(millis);
    PaddedValue(Decimal(millis), 3);
  }

  lemma {:induction false} SecondsRoundTrip(minutes: nat, seconds: nat, millis: nat)
    requires seconds < 60 && millis < 1000 && (minutes * 60 + seconds) * 1000 + millis <= U64_MAX
    ensures ParseSeconds(Padded(Decimal(seconds), 2) + "." + Padded(Decimal(millis), 3), minutes) ==
            Some((minutes * 60 + seconds) * 1000 + millis)
  {
    hide Decimal, ParseMillis, ParseU64;
    var s, f := Padded(Decimal(seconds), 2), Padded(Decimal(millis), 3);
    var raw := s + "." + f;
    forall i | 0 <= i < |s| ensures !("." <= raw[i..]) { assert raw[i..][0] == s[i] && IsDigit(s[i]); }
    FoundFirst(s, ".", f);
    assert raw[..|s|] == s && raw[|s| + 1..] == f;
    ParsePadded(seconds, 2);
    MillisRoundTrip(millis);
  }

  /** Every 64-bit time is read back from its rendering. */
  lemma {:induction false} TimestampRoundTrip(ms: u64)
    ensures ParseTimestamp(FormatTimestamp(ms)) == Some(ms)
  {
    hide Decimal, Split, Clock, ParseSeconds, ParseU64, Padded;
    var h, m, s, f := ms / 1000 / 60 / 60, ms / 1000 / 60 % 60, ms / 1000 % 60, ms % 1000;
    ClockIsClockText(h, m, s, f);
    NothingReplaced(FormatTimestamp(ms), ',', '.');
    ClockSplits(h, m, s, f);
    ParsePadded(h, 2);
    ParsePadded(m, 2);
    SecondsRoundTrip(h * 60 + m, s, f);
  }

  // ----- cues -----

  function FirstWord(s: string): string {
    if s == "" || Space(s[0]) then "" else [s[0]] + FirstWord(s[1..])
  }

  datatype Timing = Timing(start: u64, end: u64)

  function ParseTiming(line: string): Option<Timing> {
    match FindStr(line, ARROW)
    case None => None
    case Some(at) =>
      var end := FirstWord(TrimStart(line[at + 3..]));
      if end == "" || ParseTimestamp(Trim(line[..at])).None? || ParseTimestamp(Trim(end)).None? then None
      else Some(Timing(ParseTimestamp(Trim(line[..at])).value, ParseTimestamp(Trim(end)).value))
  }

  /** Lines without white space at their ends, those left empty dropped. */
  function Kept(lines: seq<string>): seq<string> {
    if lines == [] then [] else
      var line := TrimEnd(lines[0]);
      (if line == "" then [] else [line]) + Kept(lines[1..])
  }

  /** A timing line, perhaps behind a line that is none, and the text after it. */
  function ParseBlock(block: string): Option<Cue> {
    var lines := Kept(Split(block, '\n'));
    if lines == [] then None
    else if FindStr(lines[0], ARROW).Some? then ParseCue(lines[0], lines[1..])
    else if |lines| < 2 then None
    else ParseCue(lines[1], lines[2..])
  }

  function ParseCue(timing: string, lines: seq<string>): Option<Cue> {
    match ParseTiming(timing)
    case None => None
    case Some(t) =>
      var text := Join(lines, '\n');
      if Trim(text) == "" || t.end <= t.start then None else Some(Cue(t.start, t.end, text))
  }

  function SplitBlocks(s: string): seq<string> {
    match FindStr(s, BLANK_LINE)
    case None => [s]
    case Some(at) => [s[..at]] + SplitBlocks(s[at + 2..])
  }

  function ParseBlocks(blocks: seq<string>): seq<Cue> {
    if blocks == [] then [] else
      (match ParseBlock(blocks[0]) case None => [] case Some(cue) => [cue]) + ParseBlocks(blocks[1..])
  }

  function ReplacedCrLf(s: string): string {
    if s == "" then ""
    else if |s| >= 2 && s[0] == '\r' && s[1] == '\n' then "\n" + ReplacedCrLf(s[2..])
    else [s[0]] + ReplacedCrLf(s[1..])
  }

  function ParseSubrip(input: string): seq<Cue> {
    ParseBlocks(SplitBlocks(Replaced(ReplacedCrLf(input), '\r', '\n')))
  }

  function TimingLine(cue: Cue): string { FormatTimestamp(cue.start) + " --> " + FormatTimestamp(cue.end) }

  function CueBlock(cue: Cue): string { TimingLine(cue) + "\n" + Trim(cue.text) }

  function CueBlocks(cues: seq<Cue>): string {
    if cues == [] then "" else CueBlock(cues[0]) + BLANK_LINE + CueBlocks(cues[1..])
  }

  function RenderWebVtt(cues: seq<Cue>): string { HEADER + CueBlocks(cues) }

  /** The loop that renders. */
  method RenderCues(cues: seq<Cue>) returns (out: string)
    ensures out == RenderWebVtt(cues)
  {
    hide CueBlock;
    out := HEADER;
    var i: nat := 0;
    assert cues[0..] == cues;
    while i < |cues|
      invariant i <= |cues| && RenderWebVtt(cues) == out + CueBlocks(cues[i..])
    {
      assert cues[i..][0] == cues[i] && cues[i..][1..] == cues[i + 1..];
      Regroup(out, CueBlock(cues[i]) + BLANK_LINE, CueBlocks(cues[i + 1..]));
      out := out + (CueBlock(cues[i]) + BLANK_LINE);
      i := i + 1;
    }
    assert out + "" == out;
  }

  // ----- what a parsed cue is like -----

  /** Lines that parsing leaves as they are. */
  predicate Tidy(line: string) { line != "" && EndsTight(line) && Lacks(line, '\n') && Lacks(line, '\r') }

  ghost predicate AllTidy(lines: seq<string>) { forall k :: 0 <= k < |lines| ==> Tidy(lines[k]) }

  /** Start before end, and lines of text with no blank one, no carriage return and no white space at a line's end. */
  ghost predicate CueLike(cue: Cue) {
    cue.start < cue.end && AllTidy(Split(cue.text, '\n'))
  }

  /** What a caller can check: such a cue, with text that does not start with white space. */
  ghost predicate WellFormed(cue: Cue) { CueLike(cue) && Trim(cue.text) == cue.text }

  lemma {:induction false} KeptAreTidy(lines: seq<string>)
    requires forall k :: 0 <= k < |lines| ==> Lacks(lines[k], '\n') && Lacks(lines[k], '\r')
    ensures AllTidy(Kept(lines))
  {
    hide TrimEnd, Space;
    if lines != [] {
      TrimEndIsTight(lines[0]);
      KeptAreTidy(lines[1..]);
    }
  }

  lemma {:induction false} TidyIsKept(lines: seq<string>)
    requires AllTidy(lines)
    ensures Kept(lines) == lines
  {
    hide Space;
    if lines != [] {
      TidyIsKept(lines[1..]);
      assert lines == [lines[0]] + lines[1..];
    }
  }

  lemma {:induction false} PiecesLack(s: string, c: char, d: char)
    requires Lacks(s, d)
    ensures forall k :: 0 <= k < |Split(s, c)| ==> Lacks(Split(s, c)[k], d)
  {
    if s != "" { PiecesLack(s[1..], c, d); }
  }

  lemma {:induction false} ParsedIsCueLike(block: string)
    requires Lacks(block, '\r') && ParseBlock(block).Some?
    ensures CueLike(ParseBlock(block).value)
  {
    hide ParseTiming, FindStr, Split, Kept, Trim;
    SplitPieces(block, '\n');
    PiecesLack(block, '\n', '\r');
    var lines := Kept(Split(block, '\n'));
    KeptAreTidy(Split(block, '\n'));
    var rest := if FindStr(lines[0], ARROW).Some? then lines[1..] else lines[2..];
    NoTextNoCue();
    assert Join([], '\n') == "";
    SplitJoin(rest, '\n');
  }

  lemma {:induction false} NoTextNoCue()
    ensures Trim("") == ""
  {
  }

  lemma {:induction false} BlocksLack(s: string, c: char)
    requires Lacks(s, c)
    ensures forall k :: 0 <= k < |SplitBlocks(s)| ==> Lacks(SplitBlocks(s)[k], c)
  {
    hide FindStr;
    if FindStr(s, BLANK_LINE).Some? { BlocksLack(s[FindStr(s, BLANK_LINE).value + 2..], c); }
  }

  lemma {:induction false} BlocksAreCueLike(blocks: seq<string>)
    requires forall k :: 0 <= k < |blocks| ==> Lacks(blocks[k], '\r')
    ensures forall k :: 0 <= k < |ParseBlocks(blocks)| ==> CueLike(ParseBlocks(blocks)[k])
  {
    hide ParseBlock, CueLike;
    if blocks != [] {
      if ParseBlock(blocks[0]).Some? { ParsedIsCueLike(blocks[0]); }
      BlocksAreCueLike(blocks[1..]);
    }
  }

  /** Whatever the input, what comes out are cues in this sense. */
  lemma {:induction false} ParsedAreCueLike(input: string)
    ensures forall k :: 0 <= k < |ParseSubrip(input)| ==> CueLike(ParseSubrip(input)[k])
  {
    hide ParseBlocks, CueLike, SplitBlocks, ReplacedCrLf;
    var s := Replaced(ReplacedCrLf(input), '\r', '\n');
    BlocksLack(s, '\r');
    BlocksAreCueLike(SplitBlocks(s));
  }

  // ----- a rendered cue parses back -----

  lemma {:induction false} ClockCharIsPlain(c: char)
    requires ClockChar(c)
    ensures !Space(c) && c != '-' && c != '\n' && c != '\r'
  {
  }

  /** A string without white space, arrows or line breaks. */
  ghost predicate Plain(s: string) {
    s != "" && forall i :: 0 <= i < |s| ==> !Space(s[i]) && s[i] != '-' && s[i] != '\n' && s[i] != '\r'
  }

  /** Timestamps have none of the characters lines and arrows are told by. */
  lemma {:induction false} TimestampIsPlain(ms: u64)
    ensures Plain(FormatTimestamp(ms))
  {
    hide Clock, ClockChar, Space;
    var s := FormatTimestamp(ms);
    ClockIsClockText(ms / 1000 / 60 / 60, ms / 1000 / 60 % 60, ms / 1000 % 60, ms % 1000);
    forall i | 0 <= i < |s| ensures !Space(s[i]) && s[i] != '-' && s[i] != '\n' && s[i] != '\r' {
      ClockCharIsPlain(s[i]);
    }
  }

  lemma {:induction false} WordIsWhole(s: string)
    requires forall i :: 0 <= i < |s| ==> !Space(s[i])
    ensures FirstWord(s) == s
  {
    hide Space;
    if s != "" {
      WordIsWhole(s[1..]);
      assert s == [s[0]] + s[1..];
    }
  }

  lemma {:induction false} ArrowFound(a: string, b: string)
    requires forall i :: 0 <= i < |a| ==> a[i] != '-'
    ensures FindStr(a + " --> " + b, ARROW) == Some(|a| + 1)
  {
    var front, s := a + " ", a + " --> " + b;
    assert s == front + ARROW + (" " + b);
    forall i | 0 <= i < |front| ensures !(ARROW <= s[i..]) { assert s[i..][0] == front[i] && front[i] != '-'; }
    FoundFirst(front, ARROW, " " + b);
  }

  /** A line of two such strings with an arrow between is taken apart into them. */
  lemma {:induction false} PlainTimes(a: string, b: string)
    requires Plain(a) && Plain(b)
    ensures Tidy(a + " --> " + b) && FindStr(a + " --> " + b, ARROW).Some?
    ensures ParseTimestamp(a).Some? && ParseTimestamp(b).Some? ==>
              ParseTiming(a + " --> " + b) == Some(Timing(ParseTimestamp(a).value, ParseTimestamp(b).value))
  {
    hide ParseTimestamp, Space, FindStr, Trim, FirstWord, TrimStart;
    var line := a + " --> " + b;
    ArrowFound(a, b);
    assert line[..|a| + 1] == a + " " && line[|a| + 4..] == " " + b;
    TrimsTo(a);
    TrimsTo(b);
    WordIsWhole(b);
    assert line[|line| - 1] == b[|b| - 1];
  }

  lemma {:induction false} TimingRoundTrip(cue: Cue)
    ensures Tidy(TimingLine(cue)) && FindStr(TimingLine(cue), ARROW).Some?
    ensures ParseTiming(TimingLine(cue)) == Some(Timing(cue.start, cue.end))
  {
    hide FormatTimestamp, ParseTimestamp, FindStr, ParseTiming, Tidy;
    TimestampIsPlain(cue.start);
    TimestampIsPlain(cue.end);
    TimestampRoundTrip(cue.start);
    TimestampRoundTrip(cue.end);
    PlainTimes(FormatTimestamp(cue.start), FormatTimestamp(cue.end));
  }

  /** A block of a timing line and tidy lines is that cue. */
  lemma {:induction false} BlockRoundTrip(cue: Cue, lines: seq<string>)
    requires cue.start < cue.end && lines != [] && AllTidy(lines) && Trim(Join(lines, '\n')) != ""
    ensures ParseBlock(TimingLine(cue) + "\n" + Join(lines, '\n')) == Some(Cue(cue.start, cue.end, Join(lines, '\n')))
  {
    hide TimingLine, ParseTiming, FindStr, Split, Kept, Trim, Join, EndsTight;
    var line, text := TimingLine(cue), Join(lines, '\n');
    TimingRoundTrip(cue);
    SplitJoin(lines, '\n');
    SplitFirst(line, '\n', text);
    var all := [line] + lines;
    assert AllTidy(all) by {
      forall k | 0 <= k < |all| ensures Tidy(all[k]) { if k > 0 { assert all[k] == lines[k - 1]; } }
    }
    TidyIsKept(all);
    assert all[0] == line && all[1..] == lines;
  }

  // ----- trimming a cue's text touches only its first line -----

  lemma {:induction false} TrimStartTidy(line: string)
    requires Tidy(line)
    ensures Tidy(TrimStart(line)) && !Space(TrimStart(line)[0])
  {
    hide Space;
    TrimStartKeepsEnd(line);
    TightIsNotBlank(line);
  }

  lemma {:induction false} TightIsNotBlank(line: string)
    requires line != "" && EndsTight(line)
    ensures TrimStart(line) != ""
  {
    hide Space;
    if |line| > 1 && Space(line[0]) {
      TightIsNotBlank(line[1..]);
    }
  }

  lemma {:induction false} TrimStartFront(line: string, rest: string)
    requires TrimStart(line) != ""
    ensures TrimStart(line + rest) == TrimStart(line) + rest
  {
    hide Space;
    if line != "" && Space(line[0]) {
      assert (line + rest)[1..] == line[1..] + rest;
      TrimStartFront(line[1..], rest);
    }
  }

  lemma {:induction false} JoinEndsTight(lines: seq<string>)
    requires lines != [] && AllTidy(lines)
    ensures var s := Join(lines, '\n'); s != "" && !Space(s[|s| - 1])
    decreases |lines|
  {
    hide Space;
    assert Tidy(lines[0]);
    if |lines| > 1 { JoinEndsTight(lines[1..]); }
  }

  lemma {:induction false} TightStays(s: string)
    requires EndsTight(s)
    ensures TrimEnd(s) == s
  {
  }

  lemma {:induction false} JoinFirst(lines: seq<string>, first: string)
    requires lines != []
    ensures exists rest: string ::
              Join(lines, '\n') == lines[0] + rest && Join([first] + lines[1..], '\n') == first + rest
  {
    if |lines| == 1 {
      assert lines[0] + "" == lines[0] && first + "" == first && ([first] + lines[1..])[0] == first;
      assert Join(lines, '\n') == lines[0] + "" && Join([first] + lines[1..], '\n') == first + "";
    } else {
      var rest := ['\n'] + Join(lines[1..], '\n');
      assert ([first] + lines[1..])[1..] == lines[1..];
      assert lines[0] + ['\n'] + Join(lines[1..], '\n') == lines[0] + rest;
      assert first + ['\n'] + Join(lines[1..], '\n') == first + rest;
    }
  }

  lemma {:induction false} TrimJoin(lines: seq<string>)
    requires lines != [] && AllTidy(lines)
    ensures var trimmed := [TrimStart(lines[0])] + lines[1..];
            Trim(Join(lines, '\n')) == Join(trimmed, '\n') && AllTidy(trimmed) && Trim(Join(lines, '\n')) != ""
  {
    hide Space, Tidy, TrimStart, TrimEnd, Join, EndsTight;
    assert Tidy(lines[0]);
    var first := TrimStart(lines[0]);
    var trimmed := [first] + lines[1..];
    TrimStartTidy(lines[0]);
    TidyIsText(first);
    assert AllTidy(trimmed) by {
      forall k | 0 <= k < |trimmed| ensures Tidy(trimmed[k]) { if k > 0 { assert trimmed[k] == lines[k]; } }
    }
    JoinFirst(lines, first);
    var rest :| Join(lines, '\n') == lines[0] + rest && Join(trimmed, '\n') == first + rest;
    TrimStartFront(lines[0], rest);
    JoinEndsTight(trimmed);
    TightIs(Join(trimmed, '\n'));
    TightStays(Join(trimmed, '\n'));
  }

  lemma {:induction false} TidyIsText(line: string)
    requires Tidy(line)
    ensures line != ""
  {
  }

  lemma {:induction false} TightIs(s: string)
    requires s != "" && !Space(s[|s| - 1])
    ensures EndsTight(s)
  {
  }

  /** The cue as rendering writes it. */
  function Trimmed(cue: Cue): Cue { cue.(text := Trim(cue.text)) }

  lemma {:induction false} RenderedCueParses(cue: Cue)
    requires CueLike(cue)
    ensures ParseBlock(CueBlock(cue)) == Some(Trimmed(cue))
  {
    hide ParseBlock, TimingLine, Trim, Join, Split, AllTidy;
    var lines := Split(cue.text, '\n');
    SplitPieces(cue.text, '\n');
    TrimJoin(lines);
    var trimmed := [TrimStart(lines[0])] + lines[1..];
    TrimTwice(cue.text);
    BlockRoundTrip(cue, trimmed);
  }

  lemma {:induction false} TrimTwice(s: string)
    ensures Trim(Trim(s)) == Trim(s)
  {
    hide Space;
    var t := TrimStart(s);
    TrimStartKeepsEnd(s);
    TrimEndIsTight(t);
    var u := TrimEnd(t);
    if u != "" { assert u[0] == t[0] && TrimStart(u) == u; } else { assert TrimStart(u) == u; }
    TightStays(u);
  }

  // ----- blocks of a rendering -----

  /** No blank line, and no line break at either end. */
  ghost predicate OneBlock(s: string) {
    && s != "" && s[0] != '\n' && s[|s| - 1] != '\n'
    && forall i :: 0 <= i < |s| - 1 ==> !(s[i] == '\n' && s[i + 1] == '\n')
  }

  lemma {:induction false} BlocksJoin(a: string, b: string)
    requires OneBlock(a) && OneBlock(b)
    ensures OneBlock(a + "\n" + b)
  {
    var s := a + "\n" + b;
    forall i | 0 <= i < |s| - 1 ensures !(s[i] == '\n' && s[i + 1] == '\n') {
      if i + 1 < |a| { assert s[i] == a[i] && s[i + 1] == a[i + 1]; }
      if i > |a| { assert s[i] == b[i - |a| - 1] && s[i + 1] == b[i - |a|]; }
    }
  }

  lemma {:induction false} LineIsBlock(line: string)
    requires line != "" && Lacks(line, '\n')
    ensures OneBlock(line)
  {
  }

  lemma {:induction false} LinesAreBlock(lines: seq<string>)
    requires lines != [] && AllTidy(lines)
    ensures OneBlock(Join(lines, '\n'))
    decreases |lines|
  {
    hide OneBlock, EndsTight;
    assert Tidy(lines[0]);
    LineIsBlock(lines[0]);
    if |lines| > 1 {
      assert AllTidy(lines[1..]) by {
        forall k | 0 <= k < |lines| - 1 ensures Tidy(lines[1..][k]) { assert lines[1..][k] == lines[k + 1]; }
      }
      LinesAreBlock(lines[1..]);
      BlocksJoin(lines[0], Join(lines[1..], '\n'));
    }
  }

  lemma {:induction false} CueIsBlock(cue: Cue)
    requires CueLike(cue)
    ensures OneBlock(CueBlock(cue))
  {
    hide OneBlock, TimingLine, Trim, Split, Join, AllTidy;
    var lines := Split(cue.text, '\n');
    SplitPieces(cue.text, '\n');
    TrimJoin(lines);
    LinesAreBlock([TrimStart(lines[0])] + lines[1..]);
    TimingRoundTrip(cue);
    LineIsBlock(TimingLine(cue));
    BlocksJoin(TimingLine(cue), Trim(cue.text));
  }

  lemma {:induction false} BlankAt(s: string, i: nat)
    requires i + 2 <= |s|
    ensures BLANK_LINE <= s[i..] <==> s[i] == '\n' && s[i + 1] == '\n'
  {
    assert s[i..][0] == s[i] && s[i..][1] == s[i + 1];
  }

  lemma {:induction false} FirstBlock(block: string, rest: string)
    requires OneBlock(block)
    ensures SplitBlocks(block + BLANK_LINE + rest) == [block] + SplitBlocks(rest)
  {
    var s := block + BLANK_LINE + rest;
    forall i | 0 <= i < |block| ensures !(BLANK_LINE <= s[i..]) { BlankAt(s, i); }
    FoundFirst(block, BLANK_LINE, rest);
    assert s[..|block|] == block && s[|block| + 2..] == rest;
  }

  lemma {:induction false} NothingParses()
    ensures ParseBlocks(SplitBlocks("")) == [] && ParseBlock("WEBVTT").None? && OneBlock("WEBVTT")
  {
    hide FindStr;
    NoArrow("WEBVTT");
    NoArrow("");
    NoBlank();
    assert Split("", '\n') == [""] && Kept([""]) == [];
    SplitWhole("WEBVTT", '\n');
    assert Tidy("WEBVTT");
    TidyIsKept(["WEBVTT"]);
  }

  lemma {:induction false} NoBlank()
    ensures FindStr("", BLANK_LINE).None?
  {
  }

  lemma {:induction false} NoArrow(s: string)
    requires Lacks(s, '-')
    ensures FindStr(s, ARROW).None?
  {
    assert ARROW[0] == '-';
    if s != "" {
      assert s[0] != '-' && !(ARROW <= s);
      NoArrow(s[1..]);
    }
  }

  function TrimmedAll(cues: seq<Cue>): seq<Cue> {
    if cues == [] then [] else [Trimmed(cues[0])] + TrimmedAll(cues[1..])
  }

  lemma {:induction false} CueBlocksParse(cues: seq<Cue>)
    requires forall k :: 0 <= k < |cues| ==> CueLike(cues[k])
    ensures ParseBlocks(SplitBlocks(CueBlocks(cues))) == TrimmedAll(cues)
  {
    hide ParseBlock, CueBlock, CueLike, OneBlock, SplitBlocks;
    if cues == [] {
      NothingParses();
    } else {
      CueIsBlock(cues[0]);
      FirstBlock(CueBlock(cues[0]), CueBlocks(cues[1..]));
      RenderedCueParses(cues[0]);
      CueBlocksParse(cues[1..]);
      var rest := SplitBlocks(CueBlocks(cues[1..]));
      assert ([CueBlock(cues[0])] + rest)[1..] == rest;
    }
  }

  lemma {:induction false} NoReturns(s: string)
    requires Lacks(s, '\r')
    ensures Replaced(ReplacedCrLf(s), '\r', '\n') == s
  {
    WholeStays(s);
    NothingReplaced(s, '\r', '\n');
  }

  lemma {:induction false} WholeStays(s: string)
    requires Lacks(s, '\r')
    ensures ReplacedCrLf(s) == s
  {
    if s != "" {
      WholeStays(s[1..]);
      assert s == [s[0]] + s[1..];
    }
  }

  lemma {:induction false} TidyJoinLacks(lines: seq<string>)
    requires AllTidy(lines)
    ensures Lacks(Join(lines, '\n'), '\r')
    decreases |lines|
  {
    hide EndsTight;
    if lines != [] {
      assert Tidy(lines[0]);
      assert AllTidy(lines[1..]) by {
        forall k | 0 <= k < |lines| - 1 ensures Tidy(lines[1..][k]) { assert lines[1..][k] == lines[k + 1]; }
      }
      TidyJoinLacks(lines[1..]);
    }
  }

  lemma {:induction false} CueLacks(cue: Cue)
    requires CueLike(cue)
    ensures Lacks(CueBlock(cue), '\r')
  {
    hide TimingLine, Trim, Split, Join, AllTidy;
    var lines := Split(cue.text, '\n');
    SplitPieces(cue.text, '\n');
    TrimJoin(lines);
    TidyJoinLacks([TrimStart(lines[0])] + lines[1..]);
    TimingRoundTrip(cue);
  }

  lemma {:induction false} CueBlocksLack(cues: seq<Cue>)
    requires forall k :: 0 <= k < |cues| ==> CueLike(cues[k])
    ensures Lacks(CueBlocks(cues), '\r')
  {
    hide CueBlock, CueLike;
    if cues != [] {
      CueLacks(cues[0]);
      CueBlocksLack(cues[1..]);
    }
  }

  /** Parsing a rendering gives the cues back with their texts trimmed. */
  lemma {:induction false} RenderedParses(cues: seq<Cue>)
    requires forall k :: 0 <= k < |cues| ==> CueLike(cues[k])
    ensures ParseSubrip(RenderWebVtt(cues)) == TrimmedAll(cues)
  {
    hide ParseBlock, CueBlocks, CueLike, SplitBlocks, OneBlock, TrimmedAll;
    CueBlocksLack(cues);
    NoReturns(RenderWebVtt(cues));
    NothingParses();
    assert HEADER == "WEBVTT" + BLANK_LINE;
    FirstBlock("WEBVTT", CueBlocks(cues));
    var rest := SplitBlocks(CueBlocks(cues));
    assert (["WEBVTT"] + rest)[1..] == rest;
    CueBlocksParse(cues);
  }

  lemma {:induction false} TrimmedAllSame(cues: seq<Cue>)
    ensures TrimmedAll(cues) == cues <==> forall k :: 0 <= k < |cues| ==> Trim(cues[k].text) == cues[k].text
  {
    hide Trim;
    if cues != [] {
      TrimmedAllSame(cues[1..]);
      assert cues == [cues[0]] + cues[1..];
      if forall k :: 0 <= k < |cues[1..]| ==> Trim(cues[1..][k].text) == cues[1..][k].text {
        forall k | 1 <= k < |cues| ensures Trim(cues[k].text) == cues[k].text { assert cues[k] == cues[1..][k - 1]; }
      }
    }
  }

  /** Parsing undoes rendering exactly on the lists of well-formed cues. */
  lemma {:induction false} ParseUndoesRenderIff(cues: seq<Cue>)
    ensures ParseSubrip(RenderWebVtt(cues)) == cues <==> forall k :: 0 <= k < |cues| ==> WellFormed(cues[k])
  {
    hide ParseSubrip, RenderWebVtt, CueLike, Trim, TrimmedAll;
    ParsedAreCueLike(RenderWebVtt(cues));
    if forall k :: 0 <= k < |cues| ==> CueLike(cues[k]) {
      RenderedParses(cues);
      TrimmedAllSame(cues);
    }
  }
}
