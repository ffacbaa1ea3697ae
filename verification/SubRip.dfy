/** SubRip text as other programs write it, and that parsing it gives back its cues. */
module SubRip {
  import opened Machine
  import opened Text
  import opened Subtitles

  /** Hours, minutes, seconds, and milliseconds behind a comma. */
  function Stamp(ms: u64): string {
    Padded(Decimal(ms / 3_600_000), 2) + ":" + Padded(Decimal(ms / 60_000 % 60), 2) + ":" +
    Padded(Decimal(ms / 1000 % 60), 2) + "," + Padded(Decimal(ms % 1000), 3)
  }

  function StampLine(cue: Cue): string { Stamp(cue.start) + " --> " + Stamp(cue.end) }

  /** A number, the times and the text, each on lines of their own. */
  function NumberedBlock(cue: Cue, number: nat): string {
    Decimal(number) + "\n" + (StampLine(cue) + "\n" + cue.text)
  }

  function NumberedBlocks(cues: seq<Cue>, first: nat): string {
    if cues == [] then "" else NumberedBlock(cues[0], first) + "\n\n" + NumberedBlocks(cues[1..], first + 1)
  }

  /** The same text with another line end. */
  function WithLineEnds(s: string, lineEnd: string): string {
    if s == "" then "" else (if s[0] == '\n' then lineEnd else [s[0]]) + WithLineEnds(s[1..], lineEnd)
  }

  function SubRipText(cues: seq<Cue>, first: nat, lineEnd: string): string {
    WithLineEnds(NumberedBlocks(cues, first), lineEnd)
  }

  predicate LineEnd(s: string) { s == "\n" || s == "\r\n" || s == "\r" }

  // ----- line ends -----

  lemma {:induction false} CrLfUndone(s: string)
    requires Lacks(s, '\r')
    ensures ReplacedCrLf(WithLineEnds(s, "\r\n")) == s
  {
    if s != "" {
      CrLfUndone(s[1..]);
      var rest := WithLineEnds(s[1..], "\r\n");
      assert s == [s[0]] + s[1..];
      if s[0] == '\n' { assert ("\r\n" + rest)[2..] == rest; } else { assert ([s[0]] + rest)[1..] == rest; }
    }
  }

  lemma {:induction false} NoFeeds(s: string)
    requires Lacks(s, '\n')
    ensures ReplacedCrLf(s) == s
  {
    if s != "" {
      NoFeeds(s[1..]);
      assert s == [s[0]] + s[1..];
    }
  }

  lemma {:induction false} CrUndone(s: string)
    requires Lacks(s, '\r')
    ensures var t := WithLineEnds(s, "\r");
            |t| == |s| && forall i :: 0 <= i < |s| ==> t[i] == if s[i] == '\n' then '\r' else s[i]
  {
    if s != "" { CrUndone(s[1..]); }
  }

  lemma {:induction false} CrReplaced(s: string)
    requires Lacks(s, '\r')
    ensures Lacks(WithLineEnds(s, "\r"), '\n') && Replaced(WithLineEnds(s, "\r"), '\r', '\n') == s
  {
    hide WithLineEnds, Replaced;
    CrUndone(s);
  }

  lemma {:induction false} LfIsSame(s: string)
    ensures WithLineEnds(s, "\n") == s
  {
    if s != "" {
      LfIsSame(s[1..]);
      assert s == [s[0]] + s[1..];
    }
  }

  lemma {:induction false} LineEndsUndone(s: string, lineEnd: string)
    requires LineEnd(lineEnd) && Lacks(s, '\r')
    ensures Replaced(ReplacedCrLf(WithLineEnds(s, lineEnd)), '\r', '\n') == s
  {
    hide Replaced, ReplacedCrLf, WithLineEnds, Lacks;
    if lineEnd == "\n" {
      LfIsSame(s);
      NoReturns(s);
    } else if lineEnd == "\r" {
      CrReplaced(s);
      NoFeeds(WithLineEnds(s, lineEnd));
    } else {
      CrLfUndone(s);
      NothingReplaced(s, '\r', '\n');
    }
  }

  // ----- timestamps -----

  lemma {:induction false} HoursAndMinutes(ms: nat)
    ensures ms / 1000 / 60 / 60 == ms / 3_600_000 && ms / 1000 / 60 == ms / 60_000
  {
  }

  lemma {:induction false} DigitsStay(s: string)
    requires AllDigits(s)
    ensures Replaced(s, ',', '.') == s
  {
    NothingReplaced(s, ',', '.');
  }

  /** The clock of a rendering, but for the comma. */
  lemma {:induction false} StampIsClock(ms: u64)
    ensures Replaced(Stamp(ms), ',', '.') == FormatTimestamp(ms)
  {
    hide Decimal, Padded, Replaced;
    HoursAndMinutes(ms);
    var h, m := Padded(Decimal(ms / 3_600_000), 2), Padded(Decimal(ms / 60_000 % 60), 2);
    var s, f := Padded(Decimal(ms / 1000 % 60), 2), Padded(Decimal(ms % 1000), 3);
    assert Stamp(ms) == h + ":" + m + ":" + s + "," + f;
    assert FormatTimestamp(ms) == h + ":" + m + ":" + s + "." + f;
  }

  lemma {:induction false} StampParses(ms: u64)
    ensures ParseTimestamp(Stamp(ms)) == Some(ms)
  {
    hide FormatTimestamp, Stamp, ParseSeconds, Split, ParseU64, Replaced;
    StampIsClock(ms);
    TimestampRoundTrip(ms);
    assert Lacks(FormatTimestamp(ms), ',') by { NoComma(ms); }
    NothingReplaced(FormatTimestamp(ms), ',', '.');
  }

  lemma {:induction false} NoComma(ms: u64)
    ensures Lacks(FormatTimestamp(ms), ',')
  {
    hide Clock;
    ClockIsClockText(ms / 1000 / 60 / 60, ms / 1000 / 60 % 60, ms / 1000 % 60, ms % 1000);
  }

  lemma {:induction false} StampIsPlain(ms: u64)
    ensures Plain(Stamp(ms))
  {
    hide FormatTimestamp, Stamp, Replaced;
    StampIsClock(ms);
    TimestampIsPlain(ms);
    var s, t := Stamp(ms), FormatTimestamp(ms);
    forall i | 0 <= i < |s| ensures !Space(s[i]) && s[i] != '-' && s[i] != '\n' && s[i] != '\r' {
      assert t[i] == if s[i] == ',' then '.' else s[i];
    }
  }

  /** Times of any size, with a fraction of any length behind a comma or a point. */
  function LooseStamp(hours: nat, minutes: nat, seconds: nat, mark: char, fraction: string): string {
    Decimal(hours) + ":" + (Decimal(minutes) + ":" + (Decimal(seconds) + [mark] + fraction))
  }

  function DigitAt(s: string, i: nat): nat
    requires AllDigits(s)
  {
    if i < |s| then s[i] as int - '0' as int else 0
  }

  function LooseMillis(hours: nat, minutes: nat, seconds: nat, fraction: string): nat
    requires AllDigits(fraction)
  {
    hours * 3_600_000 + minutes * 60_000 + seconds * 1000
    + DigitAt(fraction, 0) * 100 + DigitAt(fraction, 1) * 10 + DigitAt(fraction, 2)
  }

  lemma {:induction false} NumberParses(n: nat)
    ensures ParseU64(Decimal(n)) == if n <= U64_MAX then Some(n) else None
    ensures ParseU64("+" + Decimal(n)) == ParseU64(Decimal(n))
  {
    DecimalValue(n);
    assert IsDigit(Decimal(n)[0]);
    assert ("+" + Decimal(n))[1..] == Decimal(n);
  }

  lemma {:induction false} LastDigit(s: string, c: char)
    requires AllDigits(s) && IsDigit(c)
    ensures AllDigits(s + [c]) && DigitsValue(s + [c]) == DigitsValue(s) * 10 + (c as int - '0' as int)
  {
    assert (s + [c])[..|s|] == s;
  }

  /** The first three digits of a fraction are its tenths, hundredths and thousandths. */
  lemma {:induction false} FractionParses(fraction: string)
    requires fraction != "" && AllDigits(fraction)
    ensures ParseMillis(fraction) ==
            Some(DigitAt(fraction, 0) * 100 + DigitAt(fraction, 1) * 10 + DigitAt(fraction, 2))
  {
    hide DigitsValue;
    var digits := fraction[..Min(3, |fraction|)];
    assert TenTo(0) == 1 && TenTo(1) == 10 && TenTo(2) == 10 * TenTo(1);
    Nought();
    assert digits[..|digits|] == digits && forall i :: 0 <= i < |digits| ==> digits[i] == fraction[i];
    LastDigit("", digits[0]);
    assert "" + [digits[0]] == digits[..1];
    if |digits| > 1 {
      LastDigit(digits[..1], digits[1]);
      assert digits[..1] + [digits[1]] == digits[..2];
    }
    if |digits| > 2 {
      LastDigit(digits[..2], digits[2]);
      assert digits[..2] + [digits[2]] == digits;
    }
  }

  lemma {:induction false} Nought()
    ensures DigitsValue("") == 0
  {
  }

  lemma {:induction false} LooseSeconds(seconds: nat, fraction: string, minutes: nat)
    requires fraction != "" && AllDigits(fraction)
    ensures var total := minutes * 60_000 + LooseMillis(0, 0, seconds, fraction);
            ParseSeconds(Decimal(seconds) + "." + fraction, minutes) ==
            if seconds < 60 && total <= U64_MAX then Some(total) else None
  {
    hide Decimal, ParseMillis, ParseU64, DigitAt;
    var s := Decimal(seconds);
    var raw := s + "." + fraction;
    forall i | 0 <= i < |s| ensures !("." <= raw[i..]) { assert raw[i..][0] == s[i] && IsDigit(s[i]); }
    FoundFirst(s, ".", fraction);
    assert raw[..|s|] == s && raw[|s| + 1..] == fraction;
    NumberParses(seconds);
    FractionParses(fraction);
  }

  /** Exactly when minutes and seconds are below sixty and the time fits 64 bits is a timestamp read, and then as it. */
  lemma {:induction false} LooseStampParsesIff(hours: nat, minutes: nat, seconds: nat, mark: char, fraction: string)
    requires fraction != "" && AllDigits(fraction) && (mark == ',' || mark == '.')
    ensures var total := LooseMillis(hours, minutes, seconds, fraction);
            ParseTimestamp(LooseStamp(hours, minutes, seconds, mark, fraction)) ==
            if minutes < 60 && seconds < 60 && total <= U64_MAX then Some(total) else None
  {
    hide Decimal, Replaced, Split, ParseU64, ParseSeconds, DigitAt;
    var h, m, s := Decimal(hours), Decimal(minutes), Decimal(seconds) + "." + fraction;
    assert Replaced(LooseStamp(hours, minutes, seconds, mark, fraction), ',', '.') == h + ":" + (m + ":" + s);
    assert h + ":" + (m + ":" + s) == h + [':'] + (m + [':'] + s);
    SplitFirst(h, ':', m + [':'] + s);
    SplitFirst(m, ':', s);
    SplitWhole(s, ':');
    NumberParses(hours);
    NumberParses(minutes);
    LooseSeconds(seconds, fraction, hours * 60 + minutes);
  }

  // ----- lines and blocks -----

  lemma {:induction false} StampLineParses(cue: Cue)
    ensures Tidy(StampLine(cue))
    ensures FindStr(StampLine(cue), ARROW).Some?
    ensures ParseTiming(StampLine(cue)) == Some(Timing(cue.start, cue.end))
  {
    hide Stamp, ParseTimestamp;
    StampIsPlain(cue.start);
    StampIsPlain(cue.end);
    StampParses(cue.start);
    StampParses(cue.end);
    PlainTimes(Stamp(cue.start), Stamp(cue.end));
  }

  predicate White(s: string) { forall i :: 0 <= i < |s| ==> Space(s[i]) }

  lemma {:induction false} WhiteInFront(white: string, s: string)
    requires White(white) && s != "" && !Space(s[0])
    ensures TrimStart(white + s) == s
  {
    hide Space;
    if white == "" {
      assert white + s == s;
    } else {
      WhiteInFront(white[1..], s);
      assert (white + s)[1..] == white[1..] + s;
    }
  }

  lemma {:induction false} WhiteBehind(s: string, white: string)
    requires White(white) && s != "" && !Space(s[|s| - 1])
    ensures TrimEnd(s + white) == s
  {
    hide Space;
    if white == "" {
      assert s + white == s;
    } else {
      var shorter := white[..|white| - 1];
      WhiteBehind(s, shorter);
      assert (s + white)[..|s + white| - 1] == s + shorter;
    }
  }

  lemma {:induction false} WordEnds(s: string, tail: string)
    requires Plain(s) && (tail == "" || Space(tail[0]))
    ensures FirstWord(s + tail) == s
    decreases |s|
  {
    hide Space;
    assert (s + tail)[1..] == s[1..] + tail;
    if |s| > 1 {
      WordEnds(s[1..], tail);
    } else {
      assert s[1..] + tail == tail;
      assert FirstWord(tail) == "";
    }
    assert [s[0]] + s[1..] == s;
  }

  /** White space around the times does not matter, nor does what follows white space behind the second. */
  lemma {:induction false} LooseTimingParses(a: string, b: string, whites: seq<string>, tail: string)
    requires Plain(a) && Plain(b) && |whites| == 3 && White(whites[0]) && White(whites[1]) && White(whites[2])
    requires tail == "" || Space(tail[0])
    ensures ParseTiming(whites[0] + a + whites[1] + "-->" + (whites[2] + (b + tail))) ==
            if ParseTimestamp(a).None? || ParseTimestamp(b).None? then None
            else Some(Timing(ParseTimestamp(a).value, ParseTimestamp(b).value))
  {
    hide ParseTimestamp, FindStr, TrimStart, TrimEnd, FirstWord, Space;
    var front, back := whites[0] + a + whites[1], whites[2] + (b + tail);
    var line := front + ARROW + back;
    BlankIsNoDash();
    forall i | 0 <= i < |front| ensures !(ARROW <= line[i..]) { assert line[i..][0] == front[i] && front[i] != '-'; }
    FoundFirst(front, ARROW, back);
    assert line[..|front|] == front && line[|front| + 3..] == back;
    assert front == whites[0] + (a + whites[1]);
    WhiteInFront(whites[0], a + whites[1]);
    WhiteBehind(a, whites[1]);
    WhiteInFront(whites[2], b + tail);
    WordEnds(b, tail);
    TrimsTo(b);
  }

  lemma {:induction false} BlankIsNoDash()
    ensures forall c :: Space(c) ==> c != '-'
  {
  }

  lemma {:induction false} NumberIsTidy(number: nat)
    ensures Tidy(Decimal(number)) && FindStr(Decimal(number), ARROW).None?
  {
    hide Decimal, FindStr;
    NoArrow(Decimal(number));
  }

  /** A numbered block with tidy lines of text is that cue. */
  lemma {:induction false} NumberedParses(cue: Cue, number: nat, lines: seq<string>)
    requires cue.start < cue.end && lines != [] && AllTidy(lines) && Trim(Join(lines, '\n')) != ""
    requires cue.text == Join(lines, '\n')
    ensures ParseBlock(NumberedBlock(cue, number)) == Some(cue)
    ensures OneBlock(NumberedBlock(cue, number)) && Lacks(NumberedBlock(cue, number), '\r')
  {
    hide StampLine, ParseTiming, FindStr, Split, Kept, Trim, Join, EndsTight, OneBlock, Decimal;
    var number', line := Decimal(number), StampLine(cue);
    NumberIsTidy(number);
    StampLineParses(cue);
    SplitJoin(lines, '\n');
    SplitFirst(line, '\n', cue.text);
    SplitFirst(number', '\n', line + "\n" + cue.text);
    var all := [number', line] + lines;
    assert [number'] + ([line] + lines) == all;
    assert AllTidy(all) by {
      forall k | 0 <= k < |all| ensures Tidy(all[k]) { if k > 1 { assert all[k] == lines[k - 2]; } }
    }
    TidyIsKept(all);
    assert all[0] == number' && all[1] == line && all[2..] == lines;
    LinesAreBlock(lines);
    LineIsBlock(line);
    LineIsBlock(number');
    BlocksJoin(line, cue.text);
    BlocksJoin(number', line + "\n" + cue.text);
    TidyJoinLacks(lines);
  }

  lemma {:induction false} CueParses(cue: Cue, number: nat)
    requires CueLike(cue)
    ensures ParseBlock(NumberedBlock(cue, number)) == Some(cue)
    ensures OneBlock(NumberedBlock(cue, number)) && Lacks(NumberedBlock(cue, number), '\r')
  {
    hide ParseBlock, NumberedBlock, Trim, Join, Split, AllTidy, OneBlock, Lacks;
    var lines := Split(cue.text, '\n');
    SplitPieces(cue.text, '\n');
    TrimJoin(lines);
    NumberedParses(cue, number, lines);
  }

  // ----- the whole text -----

  lemma {:induction false} NumberedBlocksParse(cues: seq<Cue>, first: nat)
    requires forall k :: 0 <= k < |cues| ==> CueLike(cues[k])
    ensures ParseBlocks(SplitBlocks(NumberedBlocks(cues, first))) == cues
    ensures Lacks(NumberedBlocks(cues, first), '\r')
  {
    hide ParseBlock, NumberedBlock, CueLike, OneBlock, SplitBlocks;
    if cues == [] {
      NothingParses();
    } else {
      CueParses(cues[0], first);
      NumberedBlocksParse(cues[1..], first + 1);
      FirstBlock(NumberedBlock(cues[0], first), NumberedBlocks(cues[1..], first + 1));
      var rest := SplitBlocks(NumberedBlocks(cues[1..], first + 1));
      assert ([NumberedBlock(cues[0], first)] + rest)[1..] == rest;
      assert cues == [cues[0]] + cues[1..];
    }
  }

  /**
    * SubRip text in this form parses to the cues it was made of, whatever the first number and the line end, exactly
    * when each ends after it starts and has no blank line and no white space at a line's end.
    */
  lemma {:induction false} SubRipRoundTripIff(cues: seq<Cue>, first: nat, lineEnd: string)
    requires LineEnd(lineEnd)
    ensures ParseSubrip(SubRipText(cues, first, lineEnd)) == cues <==> forall k :: 0 <= k < |cues| ==> CueLike(cues[k])
  {
    hide CueLike, NumberedBlocks, ParseBlocks, SplitBlocks, Replaced, ReplacedCrLf, WithLineEnds;
    ParsedAreCueLike(SubRipText(cues, first, lineEnd));
    if forall k :: 0 <= k < |cues| ==> CueLike(cues[k]) {
      NumberedBlocksParse(cues, first);
      LineEndsUndone(NumberedBlocks(cues, first), lineEnd);
    }
  }

  lemma {:induction false} SmallNumbers()
    ensures Padded(Decimal(0), 2) == "00" && Padded(Decimal(1), 2) == "01" && Padded(Decimal(2), 2) == "02"
    ensures Padded(Decimal(3), 2) == "03" && Padded(Decimal(0), 3) == "000" && Padded(Decimal(45), 3) == "045"
    ensures Decimal(1) == "1"
  {
    assert Decimal(45) == "45" && "0" + "45" == "045";
    assert Decimal(0) == "0" && "0" + "0" == "00" && "0" + "00" == "000";
    assert "0" + "1" == "01" && "0" + "2" == "02" && "0" + "3" == "03";
  }

  lemma {:induction false} SmallStamps()
    ensures Stamp(1000) == "00:00:01,000" && Stamp(3_723_045) == "01:02:03,045"
  {
    hide Decimal, Padded;
    SmallNumbers();
  }

  /** Such a text, letter by letter. */
  lemma {:induction false} SmallText()
    ensures SubRipText([Cue(1000, 3_723_045, "Hi")], 1, "\n") ==
            "1" + "\n" + ("00:00:01,000" + " --> " + "01:02:03,045" + "\n" + "Hi") + "\n\n"
  {
    hide Decimal, Stamp, WithLineEnds;
    var cue := Cue(1000, 3_723_045, "Hi");
    LfIsSame(NumberedBlocks([cue], 1));
    SmallStamps();
    SmallNumbers();
    NothingBehind(NumberedBlock(cue, 1) + "\n\n");
    assert [cue][1..] == [];
  }

  lemma {:induction false} NothingBehind(s: string)
    ensures s + "" == s
  {
  }
}
