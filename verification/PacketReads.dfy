/** Positional packet reads: merging packet payloads into larger spans. */
module PacketReads {
  import opened Machine
  import opened Media

  const PACKET_GAP_BYTES := 256
  const PACKET_COALESCE_BYTES := 64 * 1024
  const MAX_BUFFER_BYTES := 64 * 1024 * 1024

  datatype ReadError = UnexpectedEof | InvalidInput | Exceeded | IoFailure

  // ----- what is asked for -----

  function End(p: PacketRef): nat { p.sourceOffset + p.size }

  function Bytes(source: seq<byte>, p: PacketRef): seq<byte>
    requires End(p) <= |source|
  {
    source[p.sourceOffset..End(p)]
  }

  ghost predicate AllInside(source: seq<byte>, packets: seq<PacketRef>) {
    forall p <- packets :: End(p) <= |source|
  }

  /** The selected payloads, in list order: what a caller must get back. */
  function Selected(source: seq<byte>, packets: seq<PacketRef>): seq<byte>
    requires AllInside(source, packets)
  {
    if packets == [] then [] else Bytes(source, packets[0]) + Selected(source, packets[1..])
  }

  function TotalSize(packets: seq<PacketRef>): nat {
    if packets == [] then 0 else packets[0].size + TotalSize(packets[1..])
  }

  // ----- the merging plan -----

  datatype Limits = Limits(gap: nat, span: nat, amplification: nat)

  function LimitsFor(analysis: bool): Limits {
    if analysis then Limits(256 * 1024, 1024 * 1024, 128)
    else Limits(PACKET_GAP_BYTES, PACKET_COALESCE_BYTES, 2)
  }

  /** One positional read: packets `first..end` served by `span` bytes at `offset`. */
  datatype Span = Span(first: nat, end: nat, offset: nat, span: nat, payload: nat)

  function Start(packets: seq<PacketRef>, i: nat): Span
    requires i < |packets|
  {
    Span(i, i + 1, packets[i].sourceOffset, packets[i].size, packets[i].size)
  }

  function Grown(s: Span, next: PacketRef): Span
    requires s.offset + s.span <= next.sourceOffset
  {
    Span(s.first, s.end + 1, s.offset, End(next) - s.offset, s.payload + next.size)
  }

  /** Whether the next packet joins the span; `spare` is the window budget left by the output. */
  predicate Joins(s: Span, next: PacketRef, lim: Limits, spare: nat) {
    s.offset + s.span <= next.sourceOffset &&
    var gap := next.sourceOffset - (s.offset + s.span);
    var grown := Grown(s, next);
    (gap == 0 && s.span == s.payload) ||
    (gap <= lim.gap && grown.span <= lim.span &&
     grown.span <= lim.amplification * grown.payload && grown.span <= spare)
  }

  function Extend(packets: seq<PacketRef>, s: Span, lim: Limits, spare: nat): Span
    decreases |packets| - s.end
  {
    if s.end < |packets| && Joins(s, packets[s.end], lim, spare)
    then Extend(packets, Grown(s, packets[s.end]), lim, spare)
    else s
  }

  lemma {:induction false} ExtendKeeps(packets: seq<PacketRef>, s: Span, lim: Limits, spare: nat)
    requires s.end <= |packets|
    ensures var e := Extend(packets, s, lim, spare); e.first == s.first && s.end <= e.end <= |packets|
    decreases |packets| - s.end
  {
    if s.end < |packets| && Joins(s, packets[s.end], lim, spare) {
      ExtendKeeps(packets, Grown(s, packets[s.end]), lim, spare);
    }
  }

  function Plan(packets: seq<PacketRef>, i: nat, lim: Limits, spare: nat): seq<Span>
    requires i <= |packets|
    decreases |packets| - i
  {
    if i == |packets| then [] else
      var s := Extend(packets, Start(packets, i), lim, spare);
      ExtendKeeps(packets, Start(packets, i), lim, spare);
      [s] + Plan(packets, s.end, lim, spare)
  }

  // ----- what one span means -----

  function GapSum(packets: seq<PacketRef>): int {
    if |packets| <= 1 then 0
    else packets[1].sourceOffset - End(packets[0]) + GapSum(packets[1..])
  }

  /** No packet starts before its predecessor ends, and every gap is at most `limit`. */
  ghost predicate Ascending(packets: seq<PacketRef>) {
    forall k :: 0 < k < |packets| ==> End(packets[k - 1]) <= packets[k].sourceOffset
  }

  ghost predicate GapsWithin(packets: seq<PacketRef>, limit: nat) {
    forall k :: 0 < k < |packets| ==> packets[k].sourceOffset - End(packets[k - 1]) <= limit
  }

  /** The accounting every span keeps while it grows. */
  ghost predicate Exact(packets: seq<PacketRef>, s: Span) {
    && s.first < s.end <= |packets|
    && var group := packets[s.first..s.end];
       && Ascending(group)
       && s.offset == group[0].sourceOffset
       && s.offset + s.span == End(packets[s.end - 1])
       && s.payload == TotalSize(group)
       && s.span - s.payload == GapSum(group) >= 0
  }

  /** A span read through a scratch window obeys every limit; otherwise it has no gap at all. */
  ghost predicate Bounded(packets: seq<PacketRef>, s: Span, lim: Limits, spare: nat)
    requires Exact(packets, s)
  {
    if s.span == s.payload then GapsWithin(packets[s.first..s.end], 0)
    else GapsWithin(packets[s.first..s.end], lim.gap) && s.span <= lim.span &&
         s.span <= lim.amplification * s.payload && s.span <= spare
  }

  lemma {:induction false} TotalSizeSnoc(packets: seq<PacketRef>, p: PacketRef)
    ensures TotalSize(packets + [p]) == TotalSize(packets) + p.size
  {
    if packets != [] {
      assert (packets + [p])[1..] == packets[1..] + [p];
      TotalSizeSnoc(packets[1..], p);
    }
  }

  lemma {:induction false} GapSumSnoc(packets: seq<PacketRef>, p: PacketRef)
    requires packets != []
    ensures GapSum(packets + [p]) == GapSum(packets) + p.sourceOffset - End(packets[|packets| - 1])
  {
    if |packets| > 1 {
      assert (packets + [p])[1..] == packets[1..] + [p];
      GapSumSnoc(packets[1..], p);
    } else {
      assert (packets + [p])[1..] == [p];
    }
  }

  lemma {:induction false} GapSumZero(packets: seq<PacketRef>)
    requires Ascending(packets)
    ensures GapSum(packets) >= 0
    ensures GapSum(packets) == 0 ==> GapsWithin(packets, 0)
  {
    if |packets| > 1 {
      var rest := packets[1..];
      assert forall k :: 0 < k < |rest| ==> rest[k] == packets[k + 1] && rest[k - 1] == packets[k];
      GapSumZero(rest);
      if GapSum(packets) == 0 {
        forall k | 0 < k < |packets| ensures packets[k].sourceOffset - End(packets[k - 1]) <= 0 {
          if k > 1 { assert rest[k - 1].sourceOffset - End(rest[k - 2]) <= 0; }
        }
      }
    }
  }

  lemma {:induction false} AscendingSnoc(group: seq<PacketRef>, p: PacketRef)
    requires group != [] && Ascending(group) && End(group[|group| - 1]) <= p.sourceOffset
    ensures Ascending(group + [p])
    ensures forall n: nat :: GapsWithin(group, n) && p.sourceOffset - End(group[|group| - 1]) <= n ==>
            GapsWithin(group + [p], n)
  {
  }

  lemma {:induction false} GrownExact(packets: seq<PacketRef>, s: Span)
    requires Exact(packets, s) && s.end < |packets| && s.offset + s.span <= packets[s.end].sourceOffset
    ensures Exact(packets, Grown(s, packets[s.end]))
    ensures packets[s.first..s.end + 1] == packets[s.first..s.end] + [packets[s.end]]
  {
    var group := packets[s.first..s.end];
    assert packets[s.first..s.end + 1] == group + [packets[s.end]];
    TotalSizeSnoc(group, packets[s.end]);
    GapSumSnoc(group, packets[s.end]);
    AscendingSnoc(group, packets[s.end]);
    GapSumZero(group + [packets[s.end]]);
  }

  lemma {:induction false} GrownIsExact(packets: seq<PacketRef>, s: Span, lim: Limits, spare: nat)
    requires Exact(packets, s) && Bounded(packets, s, lim, spare)
    requires s.end < |packets| && Joins(s, packets[s.end], lim, spare)
    ensures var g := Grown(s, packets[s.end]); Exact(packets, g) && Bounded(packets, g, lim, spare)
  {
    GrownExact(packets, s);
    AscendingSnoc(packets[s.first..s.end], packets[s.end]);
    GapSumZero(packets[s.first..s.end + 1]);
  }

  lemma {:induction false} ExtendIsExact(packets: seq<PacketRef>, s: Span, lim: Limits, spare: nat)
    requires Exact(packets, s) && Bounded(packets, s, lim, spare)
    ensures var e := Extend(packets, s, lim, spare);
            Exact(packets, e) && Bounded(packets, e, lim, spare) &&
            (e.end < |packets| ==> !Joins(e, packets[e.end], lim, spare))
    decreases |packets| - s.end
  {
    if s.end < |packets| && Joins(s, packets[s.end], lim, spare) {
      GrownIsExact(packets, s, lim, spare);
      ExtendIsExact(packets, Grown(s, packets[s.end]), lim, spare);
    }
  }

  lemma {:induction false} StartIsExact(packets: seq<PacketRef>, i: nat, lim: Limits, spare: nat)
    requires i < |packets|
    ensures Exact(packets, Start(packets, i)) && Bounded(packets, Start(packets, i), lim, spare)
  {
    var group := packets[i..i + 1];
    assert group == [packets[i]];
    assert TotalSize(group) == packets[i].size;
  }

  /** Why the packet behind a read is not part of it: it starts before the read ends; or it does not go on without any
      gap, and crossing the gap would pass a limit. */
  ghost predicate Apart(packets: seq<PacketRef>, first: nat, end: nat, lim: Limits, spare: nat)
    requires first < end < |packets|
  {
    var next, from, to := packets[end], packets[first].sourceOffset, End(packets[end - 1]);
    || next.sourceOffset < to
    || (&& (next.sourceOffset > to || !GapsWithin(packets[first..end], 0))
        && (|| next.sourceOffset - to > lim.gap || End(next) - from > lim.span || End(next) - from > spare
            || End(next) - from > lim.amplification * TotalSize(packets[first..end + 1])))
  }

  lemma {:induction false} NoGapNoSum(packets: seq<PacketRef>)
    requires Ascending(packets) && GapsWithin(packets, 0)
    ensures GapSum(packets) == 0
  {
    if |packets| > 1 {
      var rest := packets[1..];
      assert forall k :: 0 < k < |rest| ==> rest[k] == packets[k + 1] && rest[k - 1] == packets[k];
      NoGapNoSum(rest);
    }
  }

  lemma {:induction false} NotJoinedIsApart(packets: seq<PacketRef>, s: Span, lim: Limits, spare: nat)
    requires Exact(packets, s) && s.end < |packets| && !Joins(s, packets[s.end], lim, spare)
    ensures Apart(packets, s.first, s.end, lim, spare)
  {
    hide GapSum, TotalSize, GapsWithin, Ascending;
    var group := packets[s.first..s.end];
    TotalSizeSnoc(group, packets[s.end]);
    assert packets[s.first..s.end + 1] == group + [packets[s.end]];
    if GapsWithin(group, 0) { NoGapNoSum(group); }
  }

  /** A span of the plan: exact, within the limits, and as long as the limits let it be. */
  ghost predicate Planned(packets: seq<PacketRef>, s: Span, lim: Limits, spare: nat) {
    && Exact(packets, s)
    && Bounded(packets, s, lim, spare)
    && (s.end < |packets| ==> Apart(packets, s.first, s.end, lim, spare))
  }

  /** The reads serve the packets from `i` on, in order, each packet by one read. */
  ghost predicate Tiles(packets: seq<PacketRef>, i: nat, plan: seq<Span>, lim: Limits, spare: nat)
    decreases |plan|
  {
    if plan == [] then i == |packets|
    else plan[0].first == i && Planned(packets, plan[0], lim, spare) &&
         Tiles(packets, plan[0].end, plan[1..], lim, spare)
  }

  lemma {:induction false} FirstIsPlanned(packets: seq<PacketRef>, i: nat, lim: Limits, spare: nat)
    requires i < |packets|
    ensures var s := Extend(packets, Start(packets, i), lim, spare);
            && s.first == i && Planned(packets, s, lim, spare)
            && Plan(packets, i, lim, spare) == [s] + Plan(packets, s.end, lim, spare)
  {
    StartIsExact(packets, i, lim, spare);
    ExtendIsExact(packets, Start(packets, i), lim, spare);
    ExtendKeeps(packets, Start(packets, i), lim, spare);
    var s := Extend(packets, Start(packets, i), lim, spare);
    if s.end < |packets| { NotJoinedIsApart(packets, s, lim, spare); }
  }

  lemma {:induction false} PlanTiles(packets: seq<PacketRef>, i: nat, lim: Limits, spare: nat)
    requires i <= |packets|
    ensures Tiles(packets, i, Plan(packets, i, lim, spare), lim, spare)
    decreases |packets| - i
  {
    if i < |packets| {
      FirstIsPlanned(packets, i, lim, spare);
      var plan := Plan(packets, i, lim, spare);
      assert plan[1..] == Plan(packets, plan[0].end, lim, spare);
      PlanTiles(packets, plan[0].end, lim, spare);
    }
  }

  /** The limits of a playback read and of an analysis read. */
  lemma {:induction false} PlanTilesFor(packets: seq<PacketRef>, analysis: bool, spare: nat)
    ensures var lim := if analysis then Limits(0x4_0000, 0x10_0000, 128) else Limits(256, 0x1_0000, 2);
            Tiles(packets, 0, Plan(packets, 0, LimitsFor(analysis), spare), lim, spare)
  {
    PlanTiles(packets, 0, LimitsFor(analysis), spare);
  }

  // ----- what a span delivers -----

  /** Cuts the packets of a group out of the window that was read at `offset`. */
  function CutOut(window: seq<byte>, offset: nat, group: seq<PacketRef>): seq<byte>
    requires forall p <- group :: offset <= p.sourceOffset && End(p) <= offset + |window|
  {
    if group == [] then [] else
      var p := group[0];
      assert p in group;
      assert p.size >= 0;
      assert offset <= p.sourceOffset;
      assert End(p) <= offset + |window|;
      window[p.sourceOffset - offset..End(p) - offset] + CutOut(window, offset, group[1..])
  }

  lemma {:induction false} AscendingBounds(packets: seq<PacketRef>, k: nat)
    requires Ascending(packets) && k < |packets|
    ensures packets[0].sourceOffset <= packets[k].sourceOffset
    ensures End(packets[k]) <= End(packets[|packets| - 1])
    decreases |packets|
  {
    if |packets| > 1 {
      var rest, front := packets[1..], packets[..|packets| - 1];
      assert forall j :: 0 < j < |rest| ==> rest[j] == packets[j + 1] && rest[j - 1] == packets[j];
      if k > 0 { AscendingBounds(rest, k - 1); AscendingBounds(rest, 0); }
      if k == 0 { AscendingBounds(rest, 0); }
    }
  }

  lemma {:induction false} GroupInSpan(packets: seq<PacketRef>, s: Span)
    requires Exact(packets, s)
    ensures forall p <- packets[s.first..s.end] :: s.offset <= p.sourceOffset && End(p) <= s.offset + s.span
  {
    var group := packets[s.first..s.end];
    forall p | p in group ensures s.offset <= p.sourceOffset && End(p) <= s.offset + s.span {
      var k :| 0 <= k < |group| && group[k] == p;
      AscendingBounds(group, k);
    }
  }

  lemma {:induction false} CutOutIsSelected(source: seq<byte>, offset: nat, length: nat, group: seq<PacketRef>)
    requires offset + length <= |source|
    requires forall p <- group :: offset <= p.sourceOffset && End(p) <= offset + length
    ensures CutOut(source[offset..offset + length], offset, group) == Selected(source, group)
  {
    if group != [] {
      var window := source[offset..offset + length];
      assert window[group[0].sourceOffset - offset..End(group[0]) - offset] == Bytes(source, group[0]);
      CutOutIsSelected(source, offset, length, group[1..]);
    }
  }

  lemma {:induction false} SlicesMeet(source: seq<byte>, a: nat, b: nat, c: nat)
    requires a <= b <= c <= |source|
    ensures source[a..b] + source[b..c] == source[a..c]
  {}

  /** Without gaps the packets of a group are one byte range of the source. */
  lemma {:induction false} SelectedWithoutGaps(source: seq<byte>, group: seq<PacketRef>)
    requires group != [] && AllInside(source, group) && Ascending(group) && GapsWithin(group, 0)
    ensures group[0].sourceOffset <= End(group[|group| - 1]) <= |source|
    ensures Selected(source, group) == source[group[0].sourceOffset..End(group[|group| - 1])]
  {
    assert group[0] in group;
    if |group| == 1 {
      assert Selected(source, group[1..]) == [];
    } else {
      var rest := group[1..];
      assert forall j :: 0 < j < |rest| ==> rest[j] == group[j + 1] && rest[j - 1] == group[j];
      assert Ascending(rest) && GapsWithin(rest, 0);
      SelectedWithoutGaps(source, rest);
      assert End(group[0]) <= group[1].sourceOffset && group[1].sourceOffset - End(group[0]) <= 0;
      assert rest[0].sourceOffset == End(group[0]);
      SlicesMeet(source, group[0].sourceOffset, End(group[0]), End(group[|group| - 1]));
    }
  }

  lemma {:induction false} SelectedAppend(source: seq<byte>, a: seq<PacketRef>, b: seq<PacketRef>)
    requires AllInside(source, a) && AllInside(source, b)
    ensures AllInside(source, a + b)
    ensures Selected(source, a + b) == Selected(source, a) + Selected(source, b)
  {
    if a == [] {
      assert a + b == b;
    } else {
      assert (a + b)[1..] == a[1..] + b;
      SelectedAppend(source, a[1..], b);
    }
  }

  lemma {:induction false} SelectedLength(source: seq<byte>, packets: seq<PacketRef>)
    requires AllInside(source, packets)
    ensures |Selected(source, packets)| == TotalSize(packets)
  {
    if packets != [] { SelectedLength(source, packets[1..]); }
  }

  lemma {:induction false} SelectedOne(source: seq<byte>, packets: seq<PacketRef>)
    requires |packets| == 1
    ensures TotalSize(packets) == packets[0].size
    ensures AllInside(source, packets) <==> End(packets[0]) <= |source|
    ensures AllInside(source, packets) ==> Selected(source, packets) == Bytes(source, packets[0])
  {
    assert packets == [packets[0]] && packets[1..] == [];
  }

  lemma {:induction false} CostOfOne(packets: seq<PacketRef>)
    requires |packets| == 1
    ensures ReadCost([Start(packets, 0)]) == packets[0].size
  {
  }

  lemma {:induction false} CostSnoc(plan: seq<Span>, s: Span)
    ensures ReadCost(plan + [s]) == ReadCost(plan) + s.span
  {
    if plan == [] {
      assert [] + [s] == [s] && [s][1..] == [];
    } else {
      assert (plan + [s])[1..] == plan[1..] + [s];
      CostSnoc(plan[1..], s);
    }
  }

  /** A part of a plan costs no more than the plan. */
  lemma {:induction false} CostOfPart(plan: seq<Span>, n: nat)
    requires n <= |plan|
    ensures ReadCost(plan[..n]) <= ReadCost(plan)
  {
    if n > 0 {
      assert plan[..n][1..] == plan[1..][..n - 1];
      CostOfPart(plan[1..], n - 1);
    }
  }

  lemma {:induction false} TotalSizeAppend(a: seq<PacketRef>, b: seq<PacketRef>)
    ensures TotalSize(a + b) == TotalSize(a) + TotalSize(b)
  {
    if a == [] {
      assert a + b == b;
    } else {
      assert (a + b)[1..] == a[1..] + b;
      TotalSizeAppend(a[1..], b);
    }
  }

  // ----- cost -----

  function ReadCost(plan: seq<Span>): nat {
    if plan == [] then 0 else plan[0].span + ReadCost(plan[1..])
  }

  /** A plan never reads more than `amplification` times the selected payload bytes. */
  lemma {:induction false} PlanCost(packets: seq<PacketRef>, i: nat, lim: Limits, spare: nat)
    requires i <= |packets| && lim.amplification >= 1
    ensures ReadCost(Plan(packets, i, lim, spare)) <= lim.amplification * TotalSize(packets[i..])
    decreases |packets| - i
  {
    if i < |packets| {
      FirstIsPlanned(packets, i, lim, spare);
      var plan := Plan(packets, i, lim, spare);
      var s := plan[0];
      assert plan[1..] == Plan(packets, s.end, lim, spare);
      PlanCost(packets, s.end, lim, spare);
      assert packets[i..] == packets[i..s.end] + packets[s.end..];
      TotalSizeAppend(packets[i..s.end], packets[s.end..]);
      AmplifiedSum(lim.amplification, s.span, s.payload, ReadCost(plan[1..]), TotalSize(packets[s.end..]));
    }
  }

  lemma {:induction false} AmplifiedSum(factor: nat, span: nat, payload: nat, cost: nat, rest: nat)
    requires factor >= 1 && (span == payload || span <= factor * payload) && cost <= factor * rest
    ensures span + cost <= factor * (payload + rest)
  {
    assert factor * (payload + rest) == factor * payload + factor * rest;
    assert payload <= factor * payload;
  }

  // ----- the reader -----

  /** The outcome of the checks made before the first read; `None` when they pass. */
  function Admission(len: u64, compressedWindowBytes: usize, packets: seq<PacketRef>): Option<ReadError> {
    var bounds := if |packets| == 1
                  then (if End(packets[0]) > len then Some(UnexpectedEof) else None)
                  else BoundsCheck(len, packets, 0);
    if bounds.Some? then bounds
    else if TotalSize(packets) > compressedWindowBytes then Some(Exceeded)
    else if TotalSize(packets) > MAX_BUFFER_BYTES then Some(InvalidInput)
    else None
  }

  function BoundsCheck(len: u64, packets: seq<PacketRef>, total: nat): Option<ReadError> {
    if packets == [] then None
    else if End(packets[0]) > U64_MAX then Some(InvalidInput)
    else if End(packets[0]) > len then Some(UnexpectedEof)
    else if total + packets[0].size > U64_MAX then Some(InvalidInput)
    else BoundsCheck(len, packets[1..], total + packets[0].size)
  }

  /** A packet list is admitted exactly when it lies in the source and fits both byte limits. */
  lemma {:induction false} AdmittedIff(source: seq<byte>, compressedWindowBytes: usize, packets: seq<PacketRef>)
    requires |source| <= U64_MAX
    ensures Admission(|source|, compressedWindowBytes, packets).None? <==>
            AllInside(source, packets) &&
            TotalSize(packets) <= compressedWindowBytes && TotalSize(packets) <= 0x400_0000
  {
    if |packets| != 1 { BoundsCheckIff(source, packets, 0); }
  }

  lemma {:induction false} BoundsCheckIff(source: seq<byte>, packets: seq<PacketRef>, total: nat)
    requires |source| <= U64_MAX && total <= U64_MAX
    ensures BoundsCheck(|source|, packets, total).None? <==>
            AllInside(source, packets) && total + TotalSize(packets) <= U64_MAX
  {
    if packets != [] {
      assert packets == [packets[0]] + packets[1..];
      if End(packets[0]) <= |source| && total + packets[0].size <= U64_MAX {
        BoundsCheckIff(source, packets[1..], total + packets[0].size);
      }
    }
  }

  /** How many positional reads were made, and how many bytes they gave. */
  datatype Counters = Counters(operations: nat, bytes: nat)

  class MediaSource {
    /** The file's content; identity checks that pin it are outside the model. */
    const bytes: seq<byte>
    const compressedWindowBytes: usize
    /** The positional reads that fail, by operation number. */
    const faults: iset<nat>
    var readBytes: nat
    var readOperations: nat

    constructor (bytes: seq<byte>, compressedWindowBytes: usize, faults: iset<nat>)
      ensures this.bytes == bytes && this.compressedWindowBytes == compressedWindowBytes
      ensures this.faults == faults && readBytes == 0 && readOperations == 0
    {
      this.bytes, this.compressedWindowBytes, this.faults := bytes, compressedWindowBytes, faults;
      readBytes, readOperations := 0, 0;
    }

    /** None of the `n` reads from number `from` on fails. */
    ghost predicate Clear(from: nat, n: nat) {
      forall k :: from <= k < from + n ==> k !in faults
    }

    /** What a positional read gives when it is number `operation`. */
    function Answer(operation: nat, offset: u64, len: u32): Result<seq<byte>, ReadError> {
      if offset + len > |bytes| then Err(UnexpectedEof)
      else if len > compressedWindowBytes then Err(Exceeded)
      else if len > MAX_BUFFER_BYTES then Err(InvalidInput)
      else if operation in faults then Err(IoFailure)
      else Ok(bytes[offset..offset + len])
    }

    method ReadExactCounted(offset: nat, len: nat) returns (r: Result<seq<byte>, ReadError>)
      requires offset + len <= |bytes|
      modifies this
      ensures readOperations == old(readOperations) + 1
      ensures r == if old(readOperations) !in faults then Ok(bytes[offset..offset + len]) else Err(IoFailure)
      ensures readBytes == old(readBytes) + if r.Ok? then len else 0
    {
      readOperations := readOperations + 1;
      if readOperations - 1 in faults { return Err(IoFailure); }
      readBytes := readBytes + len;
      return Ok(bytes[offset..offset + len]);
    }

    method ReadAt(offset: u64, len: u32) returns (r: Result<seq<byte>, ReadError>)
      requires |bytes| <= U64_MAX
      modifies this
      ensures r == Answer(old(readOperations), offset, len)
      ensures r == Err(UnexpectedEof) <==> offset + len > |bytes|
      ensures r == Err(Exceeded) <==> offset + len <= |bytes| && len > compressedWindowBytes
      ensures r == Err(InvalidInput) <==> offset + len <= |bytes| && 0x400_0000 < len <= compressedWindowBytes
      ensures r.Ok? ==> r.value == bytes[offset..offset + len]
      ensures readBytes == old(readBytes) + if r.Ok? then len else 0
      ensures readOperations == old(readOperations) + if r.Ok? || r.error == IoFailure then 1 else 0
    {
      if offset + len > |bytes| { return Err(UnexpectedEof); }
      if len > compressedWindowBytes { return Err(Exceeded); }
      if len > MAX_BUFFER_BYTES { return Err(InvalidInput); }
      r := ReadExactCounted(offset, len);
    }

    /** The reads the merging plan asks for: one for a single packet, else the plan for the mode. */
    function Reads(packets: seq<PacketRef>, analysis: bool): seq<Span> {
      if |packets| == 1 then [Start(packets, 0)]
      else Plan(packets, 0, LimitsFor(analysis), SatSub(compressedWindowBytes, Min(TotalSize(packets), U64_MAX)))
    }

    ghost function Count(): Counters
      reads this
    {
      Counters(readOperations, readBytes)
    }

    /** What planned reads come to, from the counters before to those after: all are made and the selected bytes come
        back exactly when none of them fails; else the first that fails is the last one made, and only those before it
        cost bytes. */
    ghost predicate Performed(plan: seq<Span>, selected: seq<byte>, was: Counters, now: Counters,
                              r: Result<seq<byte>, ReadError>)
    {
      if Clear(was.operations, |plan|)
      then r == Ok(selected) && now == Counters(was.operations + |plan|, was.bytes + ReadCost(plan))
      else
        && r == Err(IoFailure) && was.operations < now.operations <= was.operations + |plan|
        && Clear(was.operations, now.operations - 1 - was.operations) && now.operations - 1 in faults
        && now.bytes == was.bytes + ReadCost(plan[..now.operations - 1 - was.operations])
    }

    /** A plan of one read. */
    lemma {:induction false} OneRead(s: Span, selected: seq<byte>, was: Counters, r: Result<seq<byte>, ReadError>)
      requires r == if was.operations in faults then Err(IoFailure) else Ok(selected)
      ensures Performed([s], selected, was, Counters(was.operations + 1, was.bytes + if r.Ok? then s.span else 0), r)
    {
      assert [s][1..] == [] && [s][..0] == [];
      if was.operations !in faults { assert Clear(was.operations, 1); } else { assert !Clear(was.operations, 1); }
    }

    /** However the reads go, they cost no more than the whole plan. */
    lemma {:induction false} CostsAtMost(plan: seq<Span>, selected: seq<byte>, was: Counters, now: Counters,
                                         r: Result<seq<byte>, ReadError>)
      requires Performed(plan, selected, was, now, r)
      ensures now.bytes <= was.bytes + ReadCost(plan)
    {
      hide ReadCost;
      if r.Err? { CostOfPart(plan, now.operations - 1 - was.operations); }
    }

    method ReadPacketsMode(packets: seq<PacketRef>, analysis: bool) returns (r: Result<seq<byte>, ReadError>)
      requires |bytes| <= U64_MAX
      modifies this
      // refused before any read
      ensures var refusal := Admission(|bytes|, compressedWindowBytes, packets);
              refusal.Some? ==> r == Err(refusal.value) && Count() == old(Count())
      // admitted: exactly the selected bytes, through exactly the planned reads, if and only if none of them fails
      ensures Admission(|bytes|, compressedWindowBytes, packets).None? ==>
                && AllInside(bytes, packets)
                && Performed(Reads(packets, analysis), Selected(bytes, packets), old(Count()), Count(), r)
      // whatever the outcome, the cost is bounded by the selected payload
      ensures readBytes - old(readBytes) <= (if analysis then 128 else 2) * TotalSize(packets)
    {
      hide Plan, Selected, TotalSize, BoundsCheck, ReadCost, AllInside, Performed;
      AdmittedIff(bytes, compressedWindowBytes, packets);
      if |packets| == 1 {
        SelectedOne(bytes, packets);
        CostOfOne(packets);
        ghost var was := Count();
        r := ReadAt(packets[0].sourceOffset, packets[0].size);
        if r.Ok? || r.error == IoFailure { OneRead(Start(packets, 0), Selected(bytes, packets), was, r); }
        return;
      }
      var size := CheckBounds(packets);
      if size.Err? { return Err(size.error); }
      if size.value > compressedWindowBytes { return Err(Exceeded); }
      if size.value > MAX_BUFFER_BYTES { return Err(InvalidInput); }
      r := ReadPlanned(packets, LimitsFor(analysis), compressedWindowBytes - size.value, size.value);
      ghost var plan := Plan(packets, 0, LimitsFor(analysis), compressedWindowBytes - size.value);
      PlanCost(packets, 0, LimitsFor(analysis), compressedWindowBytes - size.value);
      assert packets[0..] == packets;
      CostsAtMost(plan, Selected(bytes, packets), old(Count()), Count(), r);
    }

    /** Checks every packet against the source and sums the sizes. */
    method CheckBounds(packets: seq<PacketRef>) returns (r: Result<nat, ReadError>)
      requires |bytes| <= U64_MAX
      ensures r == match BoundsCheck(|bytes|, packets, 0)
                   case Some(error) => Err(error)
                   case None => Ok(TotalSize(packets))
    {
      var size: nat := 0;
      for i := 0 to |packets|
        invariant size == TotalSize(packets[..i]) && size <= U64_MAX
        invariant BoundsCheck(|bytes|, packets, 0) == BoundsCheck(|bytes|, packets[i..], size)
      {
        assert packets[i..][1..] == packets[i + 1..];
        assert packets[..i + 1] == packets[..i] + [packets[i]];
        TotalSizeSnoc(packets[..i], packets[i]);
        if End(packets[i]) > U64_MAX { return Err(InvalidInput); }
        if End(packets[i]) > |bytes| { return Err(UnexpectedEof); }
        if size + packets[i].size > U64_MAX { return Err(InvalidInput); }
        size := size + packets[i].size;
      }
      assert packets[..|packets|] == packets;
      return Ok(size);
    }

    /** The merging loop, after the checks. */
    method ReadPlanned(packets: seq<PacketRef>, lim: Limits, spare: nat,
                       size: nat) returns (r: Result<seq<byte>, ReadError>)
      requires |bytes| <= U64_MAX && AllInside(bytes, packets)
      requires size == TotalSize(packets)
      modifies this
      ensures Performed(Plan(packets, 0, lim, spare), Selected(bytes, packets), old(Count()), Count(), r)
    {
      hide Plan, Selected, ReadCost, Performed, TotalSize, Planned, Underway, AllInside, Exact, GapsWithin, Clear;
      ghost var was, done := Count(), [];
      var output: seq<byte>, index: nat := [], 0;
      SetsOut(packets, lim, spare, was.operations);
      while index < |packets|
        invariant index <= |packets| && Underway(packets, lim, spare, was.operations, index, output, done)
        invariant Count() == Counters(was.operations + |done|, was.bytes + ReadCost(done))
      {
        var s := NextSpan(packets, index, lim, spare);
        PlannedFits(packets, s, lim, spare);
        InsideSpan(packets, s);
        var piece := ReadSpan(packets, s);
        if piece.Err? {
          StopsAt(packets, lim, spare, was, index, output, done, s);
          return Err(IoFailure);
        }
        GoesOn(packets, lim, spare, was.operations, index, output, done, s);
        done := done + [s];
        output, index := output + piece.value, s.end;
      }
      Arrives(packets, lim, spare, was, index, output, done);
      return Ok(output);
    }

    /** The merging loop before packet `index`: the reads `done` are the first of the plan, they went well, and their
        packets are put out. */
    ghost predicate Underway(packets: seq<PacketRef>, lim: Limits, spare: nat, from: nat, index: nat, output: seq<byte>,
                             done: seq<Span>)
      requires AllInside(bytes, packets) && index <= |packets|
    {
      && Plan(packets, 0, lim, spare) == done + Plan(packets, index, lim, spare)
      && Clear(from, |done|)
      && AllInside(bytes, packets[index..])
      && output + Selected(bytes, packets[index..]) == Selected(bytes, packets)
    }

    lemma {:induction false} SetsOut(packets: seq<PacketRef>, lim: Limits, spare: nat, from: nat)
      requires AllInside(bytes, packets)
      ensures Underway(packets, lim, spare, from, 0, [], []) && ReadCost([]) == 0
    {
      hide Plan, Selected;
      assert packets[0..] == packets && [] + Plan(packets, 0, lim, spare) == Plan(packets, 0, lim, spare);
      assert [] + Selected(bytes, packets) == Selected(bytes, packets);
    }

    lemma {:induction false} InsideSpan(packets: seq<PacketRef>, s: Span)
      requires AllInside(bytes, packets) && s.first <= s.end <= |packets|
      ensures AllInside(bytes, packets[s.first..s.end])
    {
    }

    /** One more read that went well. */
    lemma {:induction false} GoesOn(packets: seq<PacketRef>, lim: Limits, spare: nat, from: nat, index: nat,
                                    output: seq<byte>, done: seq<Span>, s: Span)
      requires AllInside(bytes, packets) && index < s.end <= |packets| && AllInside(bytes, packets[index..s.end])
      requires Underway(packets, lim, spare, from, index, output, done) && from + |done| !in faults
      requires Plan(packets, index, lim, spare) == [s] + Plan(packets, s.end, lim, spare)
      ensures Underway(packets, lim, spare, from, s.end, output + Selected(bytes, packets[index..s.end]), done + [s])
      ensures ReadCost(done + [s]) == ReadCost(done) + s.span
    {
      hide Plan, Selected, ReadCost, TotalSize;
      SplitAt(bytes, packets, index, s.end);
      Regroup(output, Selected(bytes, packets[index..s.end]), Selected(bytes, packets[s.end..]));
      Regroup(done, [s], Plan(packets, s.end, lim, spare));
      CostSnoc(done, s);
    }

    /** The next read failed. */
    lemma {:induction false} StopsAt(packets: seq<PacketRef>, lim: Limits, spare: nat, was: Counters, index: nat,
                                     output: seq<byte>, done: seq<Span>, s: Span)
      requires AllInside(bytes, packets) && index < s.end <= |packets|
      requires Underway(packets, lim, spare, was.operations, index, output, done) && was.operations + |done| in faults
      requires Plan(packets, index, lim, spare) == [s] + Plan(packets, s.end, lim, spare)
      ensures Performed(Plan(packets, 0, lim, spare), Selected(bytes, packets), was,
                        Counters(was.operations + |done| + 1, was.bytes + ReadCost(done)), Err(IoFailure))
    {
      hide Plan, Selected, ReadCost;
      assert Plan(packets, 0, lim, spare)[..|done|] == done;
    }

    /** All reads went well. */
    lemma {:induction false} Arrives(packets: seq<PacketRef>, lim: Limits, spare: nat, was: Counters, index: nat,
                                     output: seq<byte>, done: seq<Span>)
      requires AllInside(bytes, packets) && index == |packets|
      requires Underway(packets, lim, spare, was.operations, index, output, done)
      ensures Performed(Plan(packets, 0, lim, spare), Selected(bytes, packets), was,
                        Counters(was.operations + |done|, was.bytes + ReadCost(done)), Ok(output))
    {
      hide ReadCost;
      assert packets[index..] == [] && output + [] == output && done + [] == done;
    }

    /** Reads one span and gives back the payloads of its packets. */
    method ReadSpan(packets: seq<PacketRef>, s: Span) returns (r: Result<seq<byte>, ReadError>)
      requires AllInside(bytes, packets) && Exact(packets, s)
      requires s.span == s.payload ==> GapsWithin(packets[s.first..s.end], 0)
      modifies this
      ensures readOperations == old(readOperations) + 1
      ensures readBytes == old(readBytes) + if r.Ok? then s.span else 0
      ensures r == if old(readOperations) in faults then Err(IoFailure)
                   else Ok(Selected(bytes, packets[s.first..s.end]))
    {
      hide Selected, CutOut, AllInside, GapsWithin, Ascending, TotalSize, GapSum;
      var group := packets[s.first..s.end];
      SpanIsInside(bytes, packets, s);
      GroupInSpan(packets, s);
      CutOutIsSelected(bytes, s.offset, s.span, group);
      var window := ReadExactCounted(s.offset, s.span);
      if window.Err? { return window; }
      if s.span == s.payload {
        SpanWithoutGaps(bytes, packets, s);
        return window;
      }
      var payloads := Scatter(window.value, s.offset, group);
      return Ok(payloads);
    }
  }

  lemma {:induction false} PlannedFits(packets: seq<PacketRef>, s: Span, lim: Limits, spare: nat)
    requires Planned(packets, s, lim, spare)
    ensures Exact(packets, s) && s.first < s.end <= |packets|
    ensures s.span == s.payload ==> GapsWithin(packets[s.first..s.end], 0)
  {
    hide Ascending, GapsWithin, TotalSize, GapSum;
  }

  lemma {:induction false} SpanIsInside(source: seq<byte>, packets: seq<PacketRef>, s: Span)
    requires AllInside(source, packets) && Exact(packets, s)
    ensures AllInside(source, packets[s.first..s.end]) && s.offset + s.span <= |source|
  {
    hide Ascending, TotalSize, GapSum;
    assert packets[s.end - 1] in packets;
  }

  lemma {:induction false} SpanWithoutGaps(source: seq<byte>, packets: seq<PacketRef>, s: Span)
    requires Exact(packets, s) && GapsWithin(packets[s.first..s.end], 0)
    requires AllInside(source, packets[s.first..s.end]) && s.offset + s.span <= |source|
    ensures Selected(source, packets[s.first..s.end]) == source[s.offset..s.offset + s.span]
  {
    hide Ascending, GapsWithin, AllInside, Selected, TotalSize, GapSum;
    SelectedWithoutGaps(source, packets[s.first..s.end]);
  }

  lemma {:induction false} SplitAt(source: seq<byte>, packets: seq<PacketRef>, i: nat, j: nat)
    requires i <= j <= |packets| && AllInside(source, packets)
    ensures AllInside(source, packets[i..j])
    ensures Selected(source, packets[i..]) == Selected(source, packets[i..j]) + Selected(source, packets[j..])
    ensures TotalSize(packets[i..]) == TotalSize(packets[i..j]) + TotalSize(packets[j..])
  {
    assert packets[i..] == packets[i..j] + packets[j..];
    TotalSizeAppend(packets[i..j], packets[j..]);
    SelectedAppend(source, packets[i..j], packets[j..]);
  }

  /** Grows a span packet by packet, as far as the limits allow. */
  method NextSpan(packets: seq<PacketRef>, first: nat, lim: Limits, spare: nat) returns (s: Span)
    requires first < |packets|
    ensures s == Extend(packets, Start(packets, first), lim, spare)
    ensures s.first == first && Planned(packets, s, lim, spare)
    ensures Plan(packets, first, lim, spare) == [s] + Plan(packets, s.end, lim, spare)
  {
    s := Start(packets, first);
    var index := first + 1;
    while index < |packets| && Joins(s, packets[index], lim, spare)
      invariant s.first == first && s.end == index <= |packets|
      invariant Extend(packets, s, lim, spare) == Extend(packets, Start(packets, first), lim, spare)
    {
      s := Grown(s, packets[index]);
      index := index + 1;
    }
    FirstIsPlanned(packets, first, lim, spare);
  }

  lemma {:induction false} CutOutStep(window: seq<byte>, offset: nat, group: seq<PacketRef>, k: nat)
    requires k < |group|
    requires forall p <- group :: offset <= p.sourceOffset && End(p) <= offset + |window|
    ensures group[k] in group && 0 <= group[k].sourceOffset - offset <= End(group[k]) - offset <= |window|
    ensures CutOut(window, offset, group[k..]) ==
            window[group[k].sourceOffset - offset..End(group[k]) - offset] + CutOut(window, offset, group[k + 1..])
  {
    assert group[k..][0] == group[k] && group[k..][1..] == group[k + 1..];
  }

  /** Copies each packet of a group out of the scratch window. */
  method Scatter(window: seq<byte>, offset: nat, group: seq<PacketRef>) returns (output: seq<byte>)
    requires forall p <- group :: offset <= p.sourceOffset && End(p) <= offset + |window|
    ensures output == CutOut(window, offset, group)
  {
    output := [];
    ghost var all, rest := CutOut(window, offset, group), CutOut(window, offset, group);
    assert group[0..] == group && output + rest == rest;
    for k := 0 to |group|
      invariant rest == CutOut(window, offset, group[k..]) && output + rest == all
    {
      CutOutStep(window, offset, group, k);
      var payload := window[group[k].sourceOffset - offset..End(group[k]) - offset];
      rest := CutOut(window, offset, group[k + 1..]);
      Regroup(output, payload, rest);
      output := output + payload;
    }
    assert output + [] == output;
  }
}
