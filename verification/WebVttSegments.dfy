/** What a WebVTT segment reads back to, and what segmenting was judged by, said window by window. */
module WebVttSegments {
  import opened Machine
  import opened Text
  import opened Subtitles
  import opened WebVtt

  // ----- a segment reads back to its cues -----

  /** The cues that fall into a window, in order. */
  function CuesOf(cues: seq<Cue>, from: nat, to: nat): seq<Cue> {
    if cues == [] then [] else
      CuesOf(cues[..|cues| - 1], from, to) +
      if cues[|cues| - 1].start < cues[|cues| - 1].end && cues[|cues| - 1].start < to && from < cues[|cues| - 1].end
      then [cues[|cues| - 1]] else []
  }

  lemma {:induction false} BlocksSnoc(cues: seq<Cue>, cue: Cue)
    ensures CueBlocks(cues + [cue]) == CueBlocks(cues) + (CueBlock(cue) + BLANK_LINE)
  {
    hide CueBlock;
    if cues == [] {
      assert [] + [cue] == [cue] && [cue][1..] == [];
      assert CueBlock(cue) + BLANK_LINE + "" == CueBlock(cue) + BLANK_LINE;
    } else {
      assert (cues + [cue])[1..] == cues[1..] + [cue];
      BlocksSnoc(cues[1..], cue);
      Regroup(CueBlock(cues[0]) + BLANK_LINE, CueBlocks(cues[1..]), CueBlock(cue) + BLANK_LINE);
    }
  }

  lemma {:induction false} EntriesAreBlocks(cues: seq<Cue>, length: nat, i: nat)
    ensures Entries(cues, length, i) == CueBlocks(CuesOf(cues, i * length, (i + 1) * length))
  {
    hide CueBlock;
    if cues != [] {
      EntriesAreBlocks(cues[..|cues| - 1], length, i);
      var front := CuesOf(cues[..|cues| - 1], i * length, (i + 1) * length);
      BlocksSnoc(front, cues[|cues| - 1]);
      assert front + [] == front && CueBlocks(front) + "" == CueBlocks(front);
    }
  }

  lemma {:induction false} CuesOfKeep(cues: seq<Cue>, from: nat, to: nat)
    requires forall k :: 0 <= k < |cues| ==> CueLike(cues[k])
    ensures forall k :: 0 <= k < |CuesOf(cues, from, to)| ==> CueLike(CuesOf(cues, from, to)[k])
  {
    hide CueLike;
    if cues != [] { CuesOfKeep(cues[..|cues| - 1], from, to); }
  }

  /** Every segment parses to the cues that fall into its window, with their texts trimmed. */
  lemma {:induction false} SegmentParses(cues: seq<Cue>, maxEnd: nat, length: nat, prefix: string, i: nat)
    requires forall k :: 0 <= k < |cues| ==> CueLike(cues[k])
    ensures var s := SegmentOf(cues, maxEnd, length, prefix, i);
            ParseSubrip(s.body) == TrimmedAll(CuesOf(cues, i * length, (i + 1) * length))
  {
    hide CueLike, Entries, CueBlocks, ParseSubrip, TrimmedAll, CuesOf;
    EntriesAreBlocks(cues, length, i);
    CuesOfKeep(cues, i * length, (i + 1) * length);
    RenderedParses(CuesOf(cues, i * length, (i + 1) * length));
  }

  // ----- what is judged, window by window -----

  /** How many cues fall into the first `count` windows, window by window. */
  function ShownIn(cues: seq<Cue>, length: nat, count: nat): nat
    decreases count
  {
    if count == 0 then 0
    else ShownIn(cues, length, count - 1) + |CuesOf(cues, (count - 1) * length, count * length)|
  }

  /** The windows below `count` a cue falls into. */
  function WindowsBelow(cue: Cue, length: nat, count: nat): nat
    decreases count
  {
    if count == 0 then 0
    else WindowsBelow(cue, length, count - 1) +
         if cue.start < cue.end && cue.start < count * length && (count - 1) * length < cue.end then 1 else 0
  }

  lemma {:induction false} WindowsBelowIs(cue: Cue, length: nat, count: nat)
    requires length >= 1 && Shown(cue)
    ensures var first, last := cue.start / length, (cue.end - 1) / length;
            && first <= last
            && WindowsBelow(cue, length, count) == (if count <= first then 0 else Min(count, last + 1) - first)
    decreases count
  {
    hide Intersects;
    FirstNotLast(cue, length);
    if count > 0 {
      WindowsBelowIs(cue, length, count - 1);
      WindowsOfCue(cue, length, count - 1);
      BelowStep(cue, length, count);
    }
  }

  lemma {:induction false} BelowStep(cue: Cue, length: nat, count: nat)
    requires count > 0
    ensures WindowsBelow(cue, length, count) ==
            WindowsBelow(cue, length, count - 1) +
            if Intersects(cue, (count - 1) * length, count * length) then 1 else 0
  {
  }

  lemma {:induction false} CuesSnoc(cues: seq<Cue>, cue: Cue, from: nat, to: nat)
    ensures CuesOf(cues + [cue], from, to) ==
            if cue.start < cue.end && cue.start < to && from < cue.end then CuesOf(cues, from, to) + [cue]
            else CuesOf(cues, from, to)
  {
    assert (cues + [cue])[..|cues|] == cues;
    assert CuesOf(cues, from, to) + [] == CuesOf(cues, from, to);
  }

  lemma {:induction false} ShownSnoc(cues: seq<Cue>, cue: Cue, length: nat, count: nat)
    ensures ShownIn(cues + [cue], length, count) == ShownIn(cues, length, count) + WindowsBelow(cue, length, count)
    decreases count
  {
    hide CuesOf;
    if count > 0 {
      ShownSnoc(cues, cue, length, count - 1);
      CuesSnoc(cues, cue, (count - 1) * length, count * length);
    }
  }

  lemma {:induction false} NoneShown(length: nat, count: nat)
    ensures ShownIn([], length, count) == 0
    decreases count
  {
    if count > 0 { NoneShown(length, count - 1); }
  }

  lemma {:induction false} HiddenNowhere(cue: Cue, length: nat, count: nat)
    requires !Shown(cue)
    ensures WindowsBelow(cue, length, count) == 0
    decreases count
  {
    if count > 0 { HiddenNowhere(cue, length, count - 1); }
  }

  /** Repetitions counted cue by cue are those counted window by window. */
  lemma {:induction false} RepetitionsAre(cue: Cue, length: nat, count: nat)
    requires length >= 1 && cue.end <= count * length
    ensures Repetitions(cue, length) == WindowsBelow(cue, length, count)
  {
    if Shown(cue) {
      WindowsBelowIs(cue, length, count);
      Before(cue.end - 1, count, length);
    } else {
      HiddenNowhere(cue, length, count);
    }
  }

  lemma {:induction false} VisitsAre(cues: seq<Cue>, length: nat, count: nat)
    requires length >= 1 && forall c <- cues :: c.end <= count * length
    ensures Visits(cues, length) == ShownIn(cues, length, count)
  {
    if cues == [] {
      NoneShown(length, count);
    } else {
      hide Repetitions;
      var front, cue := cues[..|cues| - 1], cues[|cues| - 1];
      assert cues == front + [cue] && cue in cues;
      VisitsAre(front, length, count);
      RepetitionsAre(cue, length, count);
      ShownSnoc(front, cue, length, count);
    }
  }

  /** The bytes of some texts, and 128 for each. */
  function TextsOf(cues: seq<Cue>): nat {
    if cues == [] then 0 else TextsOf(cues[..|cues| - 1]) + |Utf8(cues[|cues| - 1].text)| + 128
  }

  /** What the first `count` windows are charged: their addresses, 128 each, and the cues that fall into them. */
  function ChargeIn(cues: seq<Cue>, length: nat, count: nat, prefix: string): nat
    decreases count
  {
    if count == 0 then 0
    else ChargeIn(cues, length, count - 1, prefix) + |Utf8(prefix)| + 128
         + TextsOf(CuesOf(cues, (count - 1) * length, count * length))
  }

  lemma {:induction false} ChargeSnoc(cues: seq<Cue>, cue: Cue, length: nat, count: nat, prefix: string)
    ensures ChargeIn(cues + [cue], length, count, prefix) ==
            ChargeIn(cues, length, count, prefix) + WindowsBelow(cue, length, count) * (|Utf8(cue.text)| + 128)
    decreases count
  {
    hide Utf8, CuesOf, TextsOf;
    if count > 0 {
      ChargeSnoc(cues, cue, length, count - 1, prefix);
      CuesSnoc(cues, cue, (count - 1) * length, count * length);
      TextsSnoc(CuesOf(cues, (count - 1) * length, count * length), cue);
      OneMore(WindowsBelow(cue, length, count - 1), |Utf8(cue.text)| + 128);
    }
  }

  lemma {:induction false} TextsSnoc(cues: seq<Cue>, cue: Cue)
    ensures TextsOf(cues + [cue]) == TextsOf(cues) + |Utf8(cue.text)| + 128
  {
    hide Utf8;
    assert (cues + [cue])[..|cues|] == cues;
  }

  lemma {:induction false} OneMore(n: nat, each: nat)
    ensures (n + 1) * each == n * each + each
  {
  }

  lemma {:induction false} ChargeOfNone(length: nat, count: nat, prefix: string)
    ensures ChargeIn([], length, count, prefix) == count * (|Utf8(prefix)| + 128)
    decreases count
  {
    hide Utf8;
    if count > 0 {
      ChargeOfNone(length, count - 1, prefix);
      var each := |Utf8(prefix)| + 128;
      assert count * each == (count - 1) * each + each;
    }
  }

  lemma {:induction false} ChargesAre(cues: seq<Cue>, length: nat, count: nat, prefix: string)
    requires length >= 1 && forall c <- cues :: c.end <= count * length
    ensures Charge(cues, length, count, prefix) == ChargeIn(cues, length, count, prefix)
  {
    hide Bytes, Utf8;
    if cues == [] {
      BytesAreUtf8(prefix);
      ChargeOfNone(length, count, prefix);
    } else {
      hide Repetitions;
      var front, cue := cues[..|cues| - 1], cues[|cues| - 1];
      assert cues == front + [cue] && cue in cues;
      ChargesAre(front, length, count, prefix);
      RepetitionsAre(cue, length, count);
      ChargeSnoc(front, cue, length, count, prefix);
      BytesAreUtf8(cue.text);
    }
  }

  /** As many windows as it takes to reach the latest end. */
  ghost predicate Reaches(cues: seq<Cue>, length: nat, count: nat) {
    && (forall c <- cues :: c.end <= count * length)
    && (count > 0 ==> exists c <- cues :: c.end > (count - 1) * length)
  }

  lemma {:induction false} EndsAtMax(cues: seq<Cue>)
    ensures forall c <- cues :: c.end <= MaxEnd(cues)
    ensures MaxEnd(cues) > 0 ==> exists c <- cues :: c.end == MaxEnd(cues)
  {
    if cues != [] {
      var front, last := cues[..|cues| - 1], cues[|cues| - 1];
      EndsAtMax(front);
      assert cues == front + [last] && last in cues;
      if MaxEnd(front) > 0 { var c :| c in front && c.end == MaxEnd(front); assert c in cues; }
    }
  }

  lemma {:induction false} CeilReaches(n: nat, length: nat, count: nat)
    requires length >= 1 && n <= count * length && (count > 0 ==> n > (count - 1) * length)
    ensures DivCeil(n, length) == count
  {
    if count == 0 {
      DivIs(length - 1, length, 0, length - 1);
    } else {
      CeilOf(n, length);
      var r := n - 1 - (count - 1) * length;
      assert count * length == (count - 1) * length + length;
      assert n - 1 == length * (count - 1) + r;
      DivIs(n - 1, length, count - 1, r);
    }
  }

  lemma {:induction false} ReachesIs(cues: seq<Cue>, length: nat, count: nat)
    requires length >= 1 && Reaches(cues, length, count)
    ensures DivCeil(MaxEnd(cues), length) == count
  {
    hide MaxEnd, DivCeil;
    EndsAtMax(cues);
    if count > 0 {
      var c :| c in cues && c.end > (count - 1) * length;
      assert (count - 1) * length >= 0;
    }
    CeilReaches(MaxEnd(cues), length, count);
  }

  /** The verdict, in the order of the checks: at most 100000 windows up to the latest end, at most two million cues in
      all of them, and no more bytes than the limit; sums past 64 bits count as the largest number. */
  lemma {:induction false} JudgedByWindow(cues: seq<Cue>, length: u64, prefix: string, limit: u64, count: nat)
    requires length >= 1 && Reaches(cues, length, count)
    ensures var shown, bytes := ShownIn(cues, length, count), ChargeIn(cues, length, count, prefix);
            Judge(cues, length, prefix, limit) ==
            if count > 100_000 then Some(TooManySegments(count))
            else if shown > 2_000_000 then Some(TooManyVisits(Min(shown, 0xffff_ffff_ffff_ffff)))
            else if Min(bytes, 0xffff_ffff_ffff_ffff) > limit
            then Some(TooManyBytes(Min(bytes, 0xffff_ffff_ffff_ffff)))
            else None
  {
    hide Visits, Charge, ShownIn, ChargeIn, DivCeil, MaxEnd;
    ReachesIs(cues, length, count);
    VisitsAre(cues, length, count);
    ChargesAre(cues, length, count, prefix);
  }

  // ----- UTF-8 -----

  /** The encoding of section 3 of RFC 3629. */
  function Utf8Char(c: char): seq<byte> {
    var x := c as int;
    if x <= 0x7f then [x]
    else if x <= 0x7ff then [0xc0 + x / 64, 0x80 + x % 64]
    else if x <= 0xffff then [0xe0 + x / 4096, 0x80 + x / 64 % 64, 0x80 + x % 64]
    else [0xf0 + x / 0x4_0000, 0x80 + x / 4096 % 64, 0x80 + x / 64 % 64, 0x80 + x % 64]
  }

  function Utf8(s: string): seq<byte> { if s == "" then [] else Utf8Char(s[0]) + Utf8(s[1..]) }

  lemma {:induction false} CharBytesAre(c: char)
    ensures CharBytes(c) == |Utf8Char(c)|
  {
  }

  lemma {:induction false} BytesAreUtf8(s: string)
    ensures Bytes(s) == |Utf8(s)|
  {
    hide CharBytes, Utf8Char;
    if s != "" {
      CharBytesAre(s[0]);
      BytesAreUtf8(s[1..]);
    }
  }
}
