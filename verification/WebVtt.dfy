/** Cutting cues into WebVTT segments of fixed duration, within limits judged before anything is made. */
module WebVtt {
  import opened Machine
  import opened Text
  import opened Subtitles

  const MAX_SEGMENTS := 100_000
  const MAX_VISITS := 2_000_000

  datatype Segment = Segment(index: nat, start: nat, duration: nat, uri: string, body: string)

  datatype Refusal = BadDuration | TooManySegments(n: nat) | TooManyVisits(n: nat) | TooManyBytes(n: nat)

  function Saturated(n: nat): u64 { Min(n, U64_MAX) }

  // ----- UTF-8 lengths -----

  function CharBytes(c: char): nat {
    if c as int < 0x80 then 1 else if c as int < 0x800 then 2 else if c as int < 0x1_0000 then 3 else 4
  }

  function Bytes(s: string): nat { if s == "" then 0 else CharBytes(s[0]) + Bytes(s[1..]) }

  lemma {:induction false} BytesAppend(a: string, b: string)
    ensures Bytes(a + b) == Bytes(a) + Bytes(b)
  {
    hide CharBytes;
    if a == "" {
      assert a + b == b;
    } else {
      assert (a + b)[1..] == a[1..] + b;
      BytesAppend(a[1..], b);
    }
  }

  predicate Ascii(s: string) { forall i :: 0 <= i < |s| ==> s[i] as int < 0x80 }

  lemma {:induction false} AsciiBytes(s: string)
    requires Ascii(s)
    ensures Bytes(s) == |s|
  {
    if s != "" { AsciiBytes(s[1..]); }
  }

  lemma {:induction false} TrimTakesBytes(s: string)
    ensures Bytes(Trim(s)) <= Bytes(s)
  {
    hide Space, CharBytes, Bytes, TrimEnd, TrimStart;
    var t := TrimStart(s);
    TrimStartKeepsEnd(s);
    var k := |s| - |t|;
    BytesAppend(s[..k], t);
    assert s == s[..k] + t;
    TrimEndIsTight(t);
    var u := TrimEnd(t);
    BytesAppend(u, t[|u|..]);
    assert t == u + t[|u|..];
  }

  // ----- what is asked for -----

  function MaxEnd(cues: seq<Cue>): u64 {
    if cues == [] then 0 else Max(MaxEnd(cues[..|cues| - 1]), cues[|cues| - 1].end)
  }

  predicate Shown(cue: Cue) { cue.start < cue.end }

  /** How many segments a shown cue goes to. */
  function Repetitions(cue: Cue, length: nat): nat
    requires length >= 1
  {
    if !Shown(cue) then 0 else
      FirstNotLast(cue, length);
      (cue.end - 1) / length - cue.start / length + 1
  }

  lemma {:induction false} FirstNotLast(cue: Cue, length: nat)
    requires length >= 1 && Shown(cue)
    ensures cue.start / length <= (cue.end - 1) / length
  {
    DivMono(cue.start, cue.end - 1, length);
  }

  lemma {:induction false} DivMono(a: nat, b: nat, d: nat)
    requires d >= 1 && a <= b
    ensures a / d <= b / d
  {
    var p, q := a / d, b / d;
    assert a == d * p + a % d && b == d * q + b % d;
    if p > q { MulMono(d, q + 1, p); }
  }

  function Visits(cues: seq<Cue>, length: nat): nat
    requires length >= 1
  {
    if cues == [] then 0 else Visits(cues[..|cues| - 1], length) + Repetitions(cues[|cues| - 1], length)
  }

  function CueCharge(cue: Cue, length: nat): nat
    requires length >= 1
  {
    Repetitions(cue, length) * (Bytes(cue.text) + 128)
  }

  /** The estimate, before it saturates. */
  function Charge(cues: seq<Cue>, length: nat, count: nat, prefix: string): nat
    requires length >= 1
  {
    if cues == [] then count * (Bytes(prefix) + 128)
    else Charge(cues[..|cues| - 1], length, count, prefix) + CueCharge(cues[|cues| - 1], length)
  }

  function Judge(cues: seq<Cue>, length: nat, prefix: string, limit: u64): Option<Refusal> {
    if length == 0 then Some(BadDuration) else
      var count := DivCeil(MaxEnd(cues), length);
      if count > MAX_SEGMENTS then Some(TooManySegments(count))
      else if Saturated(Visits(cues, length)) > MAX_VISITS then Some(TooManyVisits(Saturated(Visits(cues, length))))
      else if Saturated(Charge(cues, length, count, prefix)) > limit
      then Some(TooManyBytes(Saturated(Charge(cues, length, count, prefix))))
      else None
  }

  /** Part of the window `[from, to)` falls into the cue. */
  predicate Intersects(cue: Cue, from: nat, to: nat) { Shown(cue) && cue.start < to && from < cue.end }

  function Entry(cue: Cue): string { CueBlock(cue) + BLANK_LINE }

  /** The cues of window `i`, in order. */
  function Entries(cues: seq<Cue>, length: nat, i: nat): string {
    if cues == [] then "" else
      Entries(cues[..|cues| - 1], length, i) +
      if Intersects(cues[|cues| - 1], i * length, (i + 1) * length) then Entry(cues[|cues| - 1]) else ""
  }

  function SegmentUri(prefix: string, i: nat): string {
    (if prefix == "" then "" else prefix + "/") + "seg-" + Padded(Decimal(i), 5) + ".vtt"
  }

  /** Segment `i` once the first cues, `part`, have been given out. */
  function SegmentOf(part: seq<Cue>, maxEnd: nat, length: nat, prefix: string, i: nat): Segment {
    Segment(i, i * length, Min(length, if maxEnd > i * length then maxEnd - i * length else 0), SegmentUri(prefix, i),
            HEADER + Entries(part, length, i))
  }

  ghost predicate AreSegments(segments: seq<Segment>, part: seq<Cue>, maxEnd: nat, length: nat, prefix: string) {
    forall i :: 0 <= i < |segments| ==> segments[i] == SegmentOf(part, maxEnd, length, prefix, i)
  }

  // ----- a cue's windows -----

  /** The windows from the first to the last index are exactly those that intersect. */
  lemma {:induction false} WindowsOfCue(cue: Cue, length: nat, i: nat)
    requires length >= 1 && Shown(cue)
    ensures Intersects(cue, i * length, (i + 1) * length) <==> cue.start / length <= i <= (cue.end - 1) / length
  {
    Before(cue.start, i + 1, length);
    Before(cue.end - 1, i, length);
  }

  lemma {:induction false} Before(t: nat, i: nat, length: nat)
    requires length >= 1
    ensures t < i * length <==> t / length < i
  {
    var q := t / length;
    assert t == length * q + t % length;
    assert i * length == length * i;
    if q < i {
      MulMono(length, q + 1, i);
      assert length * (q + 1) == length * q + length;
    } else {
      MulMono(length, i, q);
    }
  }

  /** The last window of a cue is one of the segments. */
  lemma {:induction false} LastWindowExists(cue: Cue, maxEnd: nat, length: nat)
    requires length >= 1 && Shown(cue) && cue.end <= maxEnd
    ensures (cue.end - 1) / length < DivCeil(maxEnd, length)
  {
    DivMono(cue.end - 1, maxEnd - 1, length);
    CeilOf(maxEnd, length);
  }

  lemma {:induction false} CeilOf(n: nat, d: nat)
    requires n >= 1 && d >= 1
    ensures DivCeil(n, d) == (n - 1) / d + 1
  {
    var q, r := (n - 1) / d, (n - 1) % d;
    assert n - 1 == d * q + r;
    assert d * (q + 1) == d * q + d;
    DivIs(n + d - 1, d, q + 1, r);
  }

  lemma {:induction false} EndsBefore(cues: seq<Cue>, j: nat)
    requires j < |cues|
    ensures cues[j].end <= MaxEnd(cues)
  {
    if j < |cues| - 1 { EndsBefore(cues[..|cues| - 1], j); }
  }

  // ----- the segmenter -----

  method Judged(cues: seq<Cue>, length: u64, prefix: string, limit: u64) returns (r: Option<Refusal>)
    ensures r == Judge(cues, length, prefix, limit)
  {
    hide Bytes, Repetitions, MaxEnd, CueCharge;
    if length == 0 { return Some(BadDuration); }
    var count := DivCeil(MaxEnd(cues), length);
    if count > MAX_SEGMENTS { return Some(TooManySegments(count)); }
    var bytes: u64, visits: u64, j: nat := Saturated(count * (Bytes(prefix) + 128)), 0, 0;
    assert cues[..0] == [];
    while j < |cues|
      invariant j <= |cues|
      invariant visits == Saturated(Visits(cues[..j], length)) &&
                bytes == Saturated(Charge(cues[..j], length, count, prefix))
    {
      assert cues[..j + 1][..j] == cues[..j] && cues[..j + 1][j] == cues[j];
      visits := SatAdd(visits, Saturated(Repetitions(cues[j], length)));
      bytes := SatAdd(bytes, Saturated(CueCharge(cues[j], length)));
      j := j + 1;
    }
    assert cues[..j] == cues;
    if visits > MAX_VISITS { return Some(TooManyVisits(visits)); }
    if bytes > limit { return Some(TooManyBytes(bytes)); }
    return None;
  }

  method EmptySegments(count: nat, maxEnd: nat, length: nat, prefix: string) returns (segments: seq<Segment>)
    ensures |segments| == count && AreSegments(segments, [], maxEnd, length, prefix)
  {
    hide SegmentUri;
    segments := [];
    var i: nat := 0;
    while i < count
      invariant i <= count && |segments| == i && AreSegments(segments, [], maxEnd, length, prefix)
    {
      var left := if maxEnd > i * length then maxEnd - i * length else 0;
      assert HEADER + "" == HEADER;
      segments := segments + [Segment(i, i * length, Min(length, left), SegmentUri(prefix, i), HEADER)];
      i := i + 1;
    }
  }

  lemma {:induction false} EntriesSnoc(part: seq<Cue>, cue: Cue, maxEnd: nat, length: nat, prefix: string, i: nat)
    ensures var s := SegmentOf(part, maxEnd, length, prefix, i);
            SegmentOf(part + [cue], maxEnd, length, prefix, i) ==
            if Intersects(cue, i * length, (i + 1) * length) then s.(body := s.body + Entry(cue)) else s
  {
    hide Entry, SegmentUri, Intersects;
    assert (part + [cue])[..|part|] == part;
    Regroup(HEADER, Entries(part, length, i), Entry(cue));
    assert Entries(part, length, i) + "" == Entries(part, length, i);
  }

  /** The text of one cue, appended to the segments it intersects. */
  method GiveOut(segments: seq<Segment>, part: seq<Cue>, cue: Cue, ghost maxEnd: nat, length: nat, ghost prefix: string)
    returns (more: seq<Segment>)
    requires length >= 1 && AreSegments(segments, part, maxEnd, length, prefix)
    requires cue.end <= maxEnd && |segments| == DivCeil(maxEnd, length)
    ensures |more| == |segments| && AreSegments(more, part + [cue], maxEnd, length, prefix)
  {
    hide SegmentOf, Entry, DivCeil;
    more := segments;
    if Shown(cue) {
      FirstNotLast(cue, length);
      LastWindowExists(cue, maxEnd, length);
      var first, last := cue.start / length, (cue.end - 1) / length;
      var k := first;
      while k <= last
        invariant first <= k <= last + 1 && |more| == |segments|
        invariant forall i :: 0 <= i < |more| ==>
                    more[i] == if first <= i < k then segments[i].(body := segments[i].body + Entry(cue))
                               else segments[i]
      {
        more := more[k := more[k].(body := more[k].body + Entry(cue))];
        k := k + 1;
      }
    }
    forall i: nat | i < |more| ensures more[i] == SegmentOf(part + [cue], maxEnd, length, prefix, i) {
      EntriesSnoc(part, cue, maxEnd, length, prefix, i);
      if Shown(cue) { WindowsOfCue(cue, length, i); }
    }
  }

  /** Segment `i` gets the header and, in order, exactly the cues that intersect its window. */
  method SegmentWebVtt(cues: seq<Cue>, length: u64, prefix: string,
                       limit: u64) returns (r: Result<seq<Segment>, Refusal>)
    ensures Judge(cues, length, prefix, limit).Some? ==> r == Err(Judge(cues, length, prefix, limit).value)
    ensures Judge(cues, length, prefix, limit).None? ==>
              r.Ok? && |r.value| == DivCeil(MaxEnd(cues), length) &&
                  AreSegments(r.value, cues, MaxEnd(cues), length, prefix)
  {
    hide Visits, Charge, SegmentOf, MaxEnd, DivCeil;
    var refusal := Judged(cues, length, prefix, limit);
    if refusal.Some? { return Err(refusal.value); }
    var maxEnd := MaxEnd(cues);
    var segments := EmptySegments(DivCeil(maxEnd, length), maxEnd, length, prefix);
    var j: nat := 0;
    assert cues[..0] == [];
    while j < |cues|
      invariant j <= |cues| && |segments| == DivCeil(maxEnd, length) &&
                AreSegments(segments, cues[..j], maxEnd, length, prefix)
    {
      EndsBefore(cues, j);
      segments := GiveOut(segments, cues[..j], cues[j], maxEnd, length, prefix);
      assert cues[..j] + [cues[j]] == cues[..j + 1];
      j := j + 1;
    }
    assert cues[..j] == cues;
    return Ok(segments);
  }

  // ----- segments tile the time -----

  /** From zero to the latest end, one behind the other, none empty. */
  ghost predicate Tiled(segments: seq<Segment>, maxEnd: nat) {
    && (segments == [] <==> maxEnd == 0)
    && (forall i :: 0 <= i < |segments| ==> segments[i].index == i && segments[i].duration > 0)
    && (segments != [] ==>
          segments[0].start == 0 && segments[|segments| - 1].start + segments[|segments| - 1].duration == maxEnd)
    && (forall i :: 0 <= i < |segments| - 1 ==> segments[i + 1].start == segments[i].start + segments[i].duration)
  }

  lemma {:induction false} SegmentsTile(segments: seq<Segment>, cues: seq<Cue>, maxEnd: nat, length: nat,
                                        prefix: string)
    requires length >= 1 && |segments| == DivCeil(maxEnd, length) && AreSegments(segments, cues, maxEnd, length, prefix)
    ensures Tiled(segments, maxEnd)
  {
    hide SegmentUri, Entries;
    if maxEnd == 0 {
      DivIs(length - 1, length, 0, length - 1);
    } else {
      CeilOf(maxEnd, length);
      var last := |segments| - 1;
      forall i: nat | i < |segments|
        ensures segments[i].index == i && segments[i].start == i * length && segments[i].duration > 0
        ensures segments[i].duration == if i < last then length else maxEnd - segments[i].start
      {
        assert segments[i] == SegmentOf(cues, maxEnd, length, prefix, i);
        assert (i + 1) * length == i * length + length;
        Reaches(maxEnd, length, last, i);
      }
      forall i: nat | i < last ensures segments[i + 1].start == segments[i].start + segments[i].duration {
        assert (i + 1) * length == i * length + length;
      }
      assert segments[0].start == 0 * length;
    }
  }

  lemma {:induction false} Reaches(maxEnd: nat, length: nat, last: nat, i: nat)
    requires maxEnd >= 1 && length >= 1 && last == (maxEnd - 1) / length && i <= last
    ensures i * length < maxEnd && (i < last ==> maxEnd >= (i + 1) * length) &&
            (i == last ==> maxEnd <= (i + 1) * length)
  {
    Before(maxEnd - 1, i, length);
    Before(maxEnd - 1, i + 1, length);
  }

  // ----- the output stays within the estimate -----

  lemma {:induction false} TimestampLength(ms: u64)
    ensures |FormatTimestamp(ms)| <= 23 && Ascii(FormatTimestamp(ms))
  {
    hide Decimal, Padded;
    var h := ms / 1000 / 60 / 60;
    assert TenTo(2) == 100 && TenTo(3) == 1000 && TenTo(6) == 1000000 && TenTo(9) == 1000000000 &&
           TenTo(12) == 1000000000000;
    DecimalLength(h, 13, TenTo(13));
    DecimalLength(ms / 1000 / 60 % 60, 2, 100);
    DecimalLength(ms / 1000 % 60, 2, 100);
    DecimalLength(ms % 1000, 3, 1000);
  }

  /** A cue's entry takes at most its text and 128 bytes. */
  lemma {:induction false} EntryWithin(cue: Cue)
    ensures Bytes(Entry(cue)) <= Bytes(cue.text) + 128
  {
    hide Bytes, FormatTimestamp, Trim, CharBytes;
    TimestampLength(cue.start);
    TimestampLength(cue.end);
    AsciiBytes(TimingLine(cue));
    TrimTakesBytes(cue.text);
    BytesAppend(TimingLine(cue) + "\n" + Trim(cue.text), BLANK_LINE);
    BytesAppend(TimingLine(cue) + "\n", Trim(cue.text));
    BytesAppend(TimingLine(cue), "\n");
    AsciiBytes("\n");
    AsciiBytes(BLANK_LINE);
  }

  lemma {:induction false} UriWithin(prefix: string, i: nat)
    requires i < MAX_SEGMENTS
    ensures Bytes(SegmentUri(prefix, i)) <= Bytes(prefix) + 14
  {
    hide Bytes, Decimal, CharBytes;
    assert TenTo(3) == 1000 && TenTo(5) == 100000;
    DecimalLength(i, 5, TenTo(5));
    var name := "seg-" + Padded(Decimal(i), 5) + ".vtt";
    AsciiBytes(name);
    AsciiBytes("/");
    BytesAppend(prefix, "/");
    if prefix == "" {
      assert SegmentUri(prefix, i) == name;
    } else {
      assert SegmentUri(prefix, i) == (prefix + "/") + name;
      BytesAppend(prefix + "/", name);
    }
  }

  /** What one cue adds to the first `n` segments. */
  function Added(cue: Cue, length: nat, n: nat): nat {
    if n == 0 then 0 else
      Added(cue, length, n - 1) + if Intersects(cue, (n - 1) * length, n * length) then Bytes(Entry(cue)) else 0
  }

  /** How many of the first `n` windows a cue intersects. */
  function Windows(cue: Cue, length: nat, n: nat): nat {
    if n == 0 then 0 else Windows(cue, length, n - 1) + if Intersects(cue, (n - 1) * length, n * length) then 1 else 0
  }

  lemma {:induction false} AddedPerWindow(cue: Cue, length: nat, n: nat)
    ensures Added(cue, length, n) == Windows(cue, length, n) * Bytes(Entry(cue))
  {
    hide Entry, Bytes, Intersects;
    if n > 0 {
      AddedPerWindow(cue, length, n - 1);
      OneMore(Windows(cue, length, n - 1), Bytes(Entry(cue)));
    }
  }

  lemma {:induction false} OneMore(k: nat, w: nat)
    ensures (k + 1) * w == k * w + w
  {
  }

  lemma {:induction false} WindowsWithin(cue: Cue, length: nat, n: nat)
    requires length >= 1
    ensures Windows(cue, length, n) <= Repetitions(cue, length)
    ensures Shown(cue) ==> Windows(cue, length, n) == Max(0, Min(n - cue.start / length, Repetitions(cue, length)))
  {
    if Shown(cue) { FirstNotLast(cue, length); }
    if n > 0 {
      WindowsWithin(cue, length, n - 1);
      if Shown(cue) { WindowsOfCue(cue, length, n - 1); }
    }
  }

  lemma {:induction false} AddedIsCharged(cue: Cue, length: nat, n: nat)
    requires length >= 1
    ensures Added(cue, length, n) <= CueCharge(cue, length)
  {
    hide Entry, Bytes, Added, Windows, Repetitions;
    AddedPerWindow(cue, length, n);
    WindowsWithin(cue, length, n);
    EntryWithin(cue);
    Product(Windows(cue, length, n), Repetitions(cue, length), Bytes(Entry(cue)), Bytes(cue.text) + 128);
  }

  lemma {:induction false} Product(a: nat, b: nat, x: nat, y: nat)
    requires a <= b && x <= y
    ensures a * x <= b * y
  {
    assert a * x <= b * x <= b * y;
  }

  /** The entries of the first `n` windows. */
  function EntryBytes(cues: seq<Cue>, length: nat, n: nat): nat {
    if n == 0 then 0 else EntryBytes(cues, length, n - 1) + Bytes(Entries(cues, length, n - 1))
  }

  lemma {:induction false} EntryBytesSnoc(cues: seq<Cue>, length: nat, n: nat)
    requires cues != []
    ensures EntryBytes(cues, length, n) ==
            EntryBytes(cues[..|cues| - 1], length, n) + Added(cues[|cues| - 1], length, n)
  {
    hide Bytes, Entry, Intersects;
    if n > 0 {
      EntryBytesSnoc(cues, length, n - 1);
      var front, last := Entries(cues[..|cues| - 1], length, n - 1), Entry(cues[|cues| - 1]);
      BytesAppend(front, last);
      assert front + "" == front;
    }
  }

  lemma {:induction false} EntriesAreCharged(cues: seq<Cue>, length: nat, count: nat, prefix: string)
    requires length >= 1
    ensures EntryBytes(cues, length, count) + count * (Bytes(prefix) + 128) <= Charge(cues, length, count, prefix)
  {
    hide Bytes, CueCharge, Added, Entries;
    if cues == [] {
      NoEntries(length, count);
    } else {
      EntriesAreCharged(cues[..|cues| - 1], length, count, prefix);
      EntryBytesSnoc(cues, length, count);
      AddedIsCharged(cues[|cues| - 1], length, count);
    }
  }

  lemma {:induction false} NoEntries(length: nat, n: nat)
    ensures EntryBytes([], length, n) == 0
  {
    if n > 0 { NoEntries(length, n - 1); }
  }

  /** Bodies and addresses of segments. */
  function OutputBytes(segments: seq<Segment>): nat {
    if segments == [] then 0 else
      OutputBytes(segments[..|segments| - 1]) + Bytes(segments[|segments| - 1].body) +
          Bytes(segments[|segments| - 1].uri)
  }

  lemma {:induction false} OutputOfFirst(segments: seq<Segment>, cues: seq<Cue>, maxEnd: nat, length: nat,
                                         prefix: string)
    requires |segments| <= MAX_SEGMENTS && AreSegments(segments, cues, maxEnd, length, prefix)
    ensures OutputBytes(segments) <= EntryBytes(cues, length, |segments|) + |segments| * (Bytes(prefix) + 128)
  {
    hide Bytes, Entries, SegmentUri;
    if segments != [] {
      var n := |segments| - 1;
      assert segments[n] == SegmentOf(cues, maxEnd, length, prefix, n);
      OutputOfFirst(segments[..n], cues, maxEnd, length, prefix);
      BytesAppend(HEADER, Entries(cues, length, n));
      AsciiBytes(HEADER);
      UriWithin(prefix, n);
      assert (n + 1) * (Bytes(prefix) + 128) == n * (Bytes(prefix) + 128) + (Bytes(prefix) + 128);
    }
  }

  /** The bodies and addresses of accepted segments take no more than the estimate that was judged, and so no more
      than the limit, unless the estimate had no room to be told apart from a limit of all 64 bits. */
  lemma {:induction false} OutputWithinEstimate(cues: seq<Cue>, length: u64, prefix: string, limit: u64,
                                                segments: seq<Segment>)
    requires Judge(cues, length, prefix, limit).None? && |segments| == DivCeil(MaxEnd(cues), length)
    requires AreSegments(segments, cues, MaxEnd(cues), length, prefix)
    ensures OutputBytes(segments) <= Charge(cues, length, DivCeil(MaxEnd(cues), length), prefix)
    ensures limit < U64_MAX ==> OutputBytes(segments) <= limit
  {
    hide Charge, MaxEnd, DivCeil, EntryBytes, OutputBytes, AreSegments, Visits;
    OutputOfFirst(segments, cues, MaxEnd(cues), length, prefix);
    EntriesAreCharged(cues, length, DivCeil(MaxEnd(cues), length), prefix);
  }
}
