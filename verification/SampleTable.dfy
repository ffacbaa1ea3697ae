/** MP4 sample tables (ISO/IEC 14496-12 sections 8.6 and 8.7) as packets and as chunk plans. */
module SampleTable {
  import opened Machine
  import opened Media
  import Windows

  const MAX_SAMPLES := 2_000_000

  datatype SampleToChunk = SampleToChunk(firstChunk: u32, samplesPerChunk: u32)

  datatype Table = Table(
    sizes: seq<u32>,
    durations: seq<int>,
    offsets: seq<int>,
    keyframes: seq<bool>,
    chunkOffsets: seq<u64>,
    sampleToChunk: seq<SampleToChunk>)

  /** What the table parser guarantees: one entry per sample everywhere, at most two million samples, 32-bit
      durations and composition offsets, and at least one sample-to-chunk entry. */
  ghost predicate Parsed(t: Table) {
    && |t.sizes| == |t.durations| == |t.offsets| == |t.keyframes| <= MAX_SAMPLES
    && (forall d <- t.durations :: 0 <= d <= U32_MAX)
    && (forall o <- t.offsets :: -0x8000_0000 <= o <= U32_MAX)
    && t.sampleToChunk != []
  }

  // ----- timing -----

  datatype Timing = Timing(pts: int, dts: int, duration: int)

  /** Decode time of sample `i` before the common shift; a missing duration counts as zero. */
  function RawDts(t: Table, i: nat): int {
    if i == 0 then 0 else RawDts(t, i - 1) + if i <= |t.durations| then t.durations[i - 1] else 0
  }

  /** The smallest of zero and all raw times of the first `i` samples. */
  function MinTime(t: Table, i: nat): int
    requires i <= |t.offsets|
  {
    if i == 0 then 0
    else Min(MinTime(t, i - 1), Min(RawDts(t, i - 1) + t.offsets[i - 1], RawDts(t, i - 1)))
  }

  predicate Complete(t: Table) { |t.sizes| <= |t.durations| && |t.sizes| <= |t.offsets| }

  function TimingAt(t: Table, i: nat): Timing
    requires Complete(t) && i < |t.sizes|
  {
    var shift := -MinTime(t, |t.sizes|);
    Timing(RawDts(t, i) + t.offsets[i] + shift, RawDts(t, i) + shift, t.durations[i])
  }

  lemma {:induction false} RawDtsRange(t: Table, i: nat)
    requires Parsed(t) && i <= |t.durations|
    ensures 0 <= RawDts(t, i) <= i * U32_MAX
  {
    if i > 0 {
      RawDtsRange(t, i - 1);
      assert t.durations[i - 1] in t.durations;
    }
  }

  lemma {:induction false} MinTimeIsMin(t: Table, i: nat)
    requires Parsed(t) && i <= |t.durations|
    ensures -0x8000_0000 <= MinTime(t, i) <= 0
    ensures forall k :: 0 <= k < i ==> MinTime(t, i) <= RawDts(t, k) && MinTime(t, i) <= RawDts(t, k) + t.offsets[k]
    ensures MinTime(t, i) == 0 || exists k :: 0 <= k < i && MinTime(t, i) == RawDts(t, k) + t.offsets[k]
  {
    if i > 0 {
      MinTimeIsMin(t, i - 1);
      RawDtsRange(t, i - 1);
      assert t.offsets[i - 1] in t.offsets;
    }
  }

  lemma {:induction false} TimingFits(t: Table, i: nat)
    requires Parsed(t) && i < |t.sizes|
    ensures 0 <= TimingAt(t, i).pts <= U64_MAX && 0 <= TimingAt(t, i).dts <= U64_MAX
    ensures 0 <= t.durations[i] <= U32_MAX
  {
    MinTimeIsMin(t, |t.sizes|);
    RawDtsRange(t, i);
    assert t.offsets[i] in t.offsets && t.durations[i] in t.durations;
  }

  /** Times fit 64 bits, presentation differs from decoding by the composition offset, and decode times by the
      durations. */
  ghost predicate NormalAt(t: Table, i: nat)
    requires Complete(t) && i < |t.sizes|
  {
    var m := TimingAt(t, i);
    && 0 <= m.pts <= U64_MAX && 0 <= m.dts <= U64_MAX
    && m.pts - m.dts == t.offsets[i] && m.duration == t.durations[i]
    && (i + 1 < |t.sizes| ==> TimingAt(t, i + 1).dts - m.dts == t.durations[i])
  }

  /** Normalized times of a parsed table are normal everywhere and start at zero. */
  lemma {:induction false} TimingIsNormal(t: Table)
    requires Parsed(t)
    ensures forall i :: 0 <= i < |t.sizes| ==> NormalAt(t, i)
    ensures t.sizes != [] ==> exists i :: 0 <= i < |t.sizes| && (TimingAt(t, i).pts == 0 || TimingAt(t, i).dts == 0)
  {
    var n := |t.sizes|;
    forall i | 0 <= i < n ensures NormalAt(t, i) { TimingFits(t, i); }
    MinTimeIsMin(t, n);
    if n > 0 {
      if MinTime(t, n) == 0 {
        assert TimingAt(t, 0).dts == 0;
      } else {
        var k :| 0 <= k < n && MinTime(t, n) == RawDts(t, k) + t.offsets[k];
        assert TimingAt(t, k).pts == 0;
      }
    }
  }

  const I128_MAX := 0x7fff_ffff_ffff_ffff_ffff_ffff_ffff_ffff

  predicate FitsI128(x: int) { -I128_MAX - 1 <= x <= I128_MAX }

  /** The first pass: the smallest raw time, with checked 128-bit sums. */
  method MinTimePass(t: Table) returns (min: Option<int>)
    ensures min.Some? ==> |t.sizes| <= |t.offsets| && min.value == MinTime(t, |t.sizes|)
    ensures Parsed(t) ==> min.Some?
  {
    var dts, smallest := 0, 0;
    for i := 0 to |t.sizes|
      invariant i <= |t.offsets| && dts == RawDts(t, i) && smallest == MinTime(t, i)
    {
      if i >= |t.offsets| { return None; }
      if Parsed'(t) { RawDtsRange(t, i); RawDtsRange(t, i + 1); assert t.offsets[i] in t.offsets; }
      var duration := if i < |t.durations| then t.durations[i] else 0;
      var pts := dts + t.offsets[i];
      if !FitsI128(pts) { return None; }
      smallest := Min(Min(smallest, pts), dts);
      dts := dts + duration;
      if !FitsI128(dts) { return None; }
    }
    return Some(smallest);
  }

  /** One sample's times, or nothing when a sum leaves its range. */
  function CheckedTiming(dts: int, offset: int, duration: int, shift: int): Option<Timing> {
    if !FitsI128(dts + offset) || !FitsI128(dts + duration) || !FitsI128(dts + offset + shift) || !FitsI128(dts + shift)
      || !(0 <= dts + offset + shift <= U64_MAX) || !(0 <= dts + shift <= U64_MAX) || !(0 <= duration <= U64_MAX)
    then None
    else Some(Timing(dts + offset + shift, dts + shift, duration))
  }

  lemma {:induction false} ParsedTimingChecks(t: Table, i: nat)
    requires Parsed(t) && i < |t.sizes|
    ensures CheckedTiming(RawDts(t, i), t.offsets[i], t.durations[i], -MinTime(t, |t.sizes|)) == Some(TimingAt(t, i))
  {
    TimingFits(t, i);
    RawDtsRange(t, i);
    RawDtsRange(t, i + 1);
    assert t.offsets[i] in t.offsets && t.durations[i] in t.durations;
  }

  function ShiftedAt(t: Table, shift: int, i: nat): Timing
    requires Complete(t) && i < |t.sizes|
  {
    Timing(RawDts(t, i) + t.offsets[i] + shift, RawDts(t, i) + shift, t.durations[i])
  }

  /** The second pass, with the shift of the first. */
  method TimingPass(t: Table, shift: int) returns (r: Option<seq<Timing>>)
    requires |t.sizes| <= |t.offsets| && shift == -MinTime(t, |t.sizes|)
    ensures r.Some? ==> && Complete(t) && |r.value| == |t.sizes|
                        && forall i :: 0 <= i < |t.sizes| ==> r.value[i] == TimingAt(t, i)
    ensures Parsed(t) ==> r.Some?
  {
    var dts: int, out: seq<Timing> := 0, [];
    if |t.durations| < |t.sizes| { return None; }
    for i := 0 to |t.sizes|
      invariant |out| == i && dts == RawDts(t, i)
      invariant forall k :: 0 <= k < i ==> out[k] == ShiftedAt(t, shift, k)
    {
      if Parsed'(t) { ParsedTimingChecks(t, i); }
      var m := CheckedTiming(dts, t.offsets[i], t.durations[i], shift);
      if m.None? { return None; }
      out := out + [m.value];
      dts := dts + t.durations[i];
    }
    return Some(out);
  }

  /** Two passes; a parsed table always gets its times. */
  method NormalizedTiming(t: Table) returns (r: Option<seq<Timing>>)
    ensures r.Some? ==> && Complete(t) && |r.value| == |t.sizes|
                        && forall i :: 0 <= i < |t.sizes| ==> r.value[i] == TimingAt(t, i)
    ensures Parsed(t) ==> r.Some?
  {
    var min := MinTimePass(t);
    if Parsed'(t) { MinTimeIsMin(t, |t.sizes|); }
    if min.None? || !FitsI128(-min.value) { return None; }
    r := TimingPass(t, -min.value);
  }

  // ----- which samples a chunk holds -----

  function Advance(t: Table, index: nat, chunkNumber: nat): nat
    requires index < |t.sampleToChunk|
    decreases |t.sampleToChunk| - index
  {
    if index + 1 < |t.sampleToChunk| && chunkNumber >= t.sampleToChunk[index + 1].firstChunk
    then Advance(t, index + 1, chunkNumber) else index
  }

  lemma {:induction false} AdvanceStays(t: Table, index: nat, chunkNumber: nat)
    requires index < |t.sampleToChunk|
    ensures index <= Advance(t, index, chunkNumber) < |t.sampleToChunk|
    decreases |t.sampleToChunk| - index
  {
    if index + 1 < |t.sampleToChunk| && chunkNumber >= t.sampleToChunk[index + 1].firstChunk {
      AdvanceStays(t, index + 1, chunkNumber);
    }
  }

  /** The sample-to-chunk entry in force for chunk number `c` (from one); zero chunks leave the first entry. */
  function EntryFor(t: Table, c: nat): (r: nat)
    requires t.sampleToChunk != []
    ensures r < |t.sampleToChunk|
  {
    if c == 0 then 0 else
      AdvanceStays(t, EntryFor(t, c - 1), c);
      Advance(t, EntryFor(t, c - 1), c)
  }

  function PerChunk(t: Table, c: nat): nat
    requires t.sampleToChunk != [] && c >= 1
  {
    t.sampleToChunk[EntryFor(t, c)].samplesPerChunk
  }

  /** Samples placed in the first `c` chunks; never more than there are. */
  function Placed(t: Table, c: nat): (r: nat)
    requires t.sampleToChunk != []
    ensures r <= |t.sizes|
  {
    if c == 0 then 0 else Min(|t.sizes|, Placed(t, c - 1) + PerChunk(t, c))
  }

  lemma {:induction false} PlacedGrows(t: Table, b: nat, c: nat)
    requires t.sampleToChunk != [] && b <= c
    ensures Placed(t, b) <= Placed(t, c)
    ensures Placed(t, b) == |t.sizes| ==> Placed(t, c) == |t.sizes|
    decreases c
  {
    if b < c { PlacedGrows(t, b, c - 1); }
  }

  /** From any entry on: every entry passed has come into force, and the next one has not. */
  lemma {:induction false} AdvanceReaches(t: Table, index: nat, c: nat)
    requires index < |t.sampleToChunk|
    ensures var r := Advance(t, index, c);
            && index <= r < |t.sampleToChunk|
            && (forall k :: index < k <= r ==> t.sampleToChunk[k].firstChunk <= c)
            && (r + 1 < |t.sampleToChunk| ==> c < t.sampleToChunk[r + 1].firstChunk)
    decreases |t.sampleToChunk| - index
  {
    if index + 1 < |t.sampleToChunk| && c >= t.sampleToChunk[index + 1].firstChunk { AdvanceReaches(t, index + 1, c); }
  }

  ghost predicate Ascending(rows: seq<SampleToChunk>) {
    forall j, k :: 0 <= j < k < |rows| ==> rows[j].firstChunk <= rows[k].firstChunk
  }

  /** With rows in ascending order the entry for a chunk is the last one whose first chunk is not behind it. */
  lemma {:induction false} EntryInForce(t: Table, c: nat)
    requires t.sampleToChunk != [] && c >= 1 && Ascending(t.sampleToChunk)
    ensures forall k :: 0 < k < |t.sampleToChunk| ==> (k <= EntryFor(t, c) <==> t.sampleToChunk[k].firstChunk <= c)
  {
    var e, r := EntryFor(t, c - 1), EntryFor(t, c);
    AdvanceReaches(t, e, c);
    if c > 1 { EntryInForce(t, c - 1); }
    forall k | 0 < k < |t.sampleToChunk| ensures k <= r <==> t.sampleToChunk[k].firstChunk <= c {
      if k <= e { assert c > 1 ==> t.sampleToChunk[k].firstChunk <= c - 1; }
      if k > r { assert t.sampleToChunk[r + 1].firstChunk <= t.sampleToChunk[k].firstChunk; }
    }
  }

  /** Moves on to the entry in force, passing only entries that have come into force. */
  method AdvanceSampleToChunk(t: Table, index: nat, chunkNumber: nat) returns (r: nat)
    requires index < |t.sampleToChunk|
    ensures index <= r < |t.sampleToChunk|
    ensures forall k :: index < k <= r ==> t.sampleToChunk[k].firstChunk <= chunkNumber
    ensures r + 1 < |t.sampleToChunk| ==> chunkNumber < t.sampleToChunk[r + 1].firstChunk
    ensures r == Advance(t, index, chunkNumber)
  {
    r := index;
    while r + 1 < |t.sampleToChunk| && chunkNumber >= t.sampleToChunk[r + 1].firstChunk
      invariant index <= r < |t.sampleToChunk| && Advance(t, r, chunkNumber) == Advance(t, index, chunkNumber)
      invariant forall k :: index < k <= r ==> t.sampleToChunk[k].firstChunk <= chunkNumber
    {
      r := r + 1;
    }
  }

  // ----- packets -----

  function SizeSum(t: Table, lo: nat, hi: nat): nat
    requires lo <= hi <= |t.sizes|
    decreases hi
  {
    if lo == hi then 0 else
      assert hi >= 1;
      var last: u32 := t.sizes[hi - 1];
      SizeSum(t, lo, hi - 1) + last
  }

  /** The packet of sample `i`, placed behind the earlier samples of its chunk, which begins with sample `first`. */
  function PacketOf(t: Table, scale: u32, i: nat, chunkOffset: u64, first: nat): PacketRef
    requires Parsed(t) && first <= i < |t.sizes|
  {
    TimingFits(t, i);
    var m := TimingAt(t, i);
    PacketRef(SatAdd(chunkOffset, Min(U64_MAX, SizeSum(t, first, i))), t.sizes[i],
              MediaTime(m.pts, scale), MediaTime(m.dts, scale), MediaTime(m.duration, scale), t.keyframes[i])
  }

  /** The packets of samples `first..i` of one chunk. */
  function PacketsOfChunk(t: Table, scale: u32, chunkOffset: u64, first: nat, i: nat): seq<PacketRef>
    requires Parsed(t) && first <= i <= |t.sizes|
    decreases i
  {
    if i == first then [] else
      PacketsOfChunk(t, scale, chunkOffset, first, i - 1) + [PacketOf(t, scale, i - 1, chunkOffset, first)]
  }

  /** The packets of the first `c` chunks. */
  function PacketsOf(t: Table, scale: u32, c: nat): seq<PacketRef>
    requires Parsed(t) && c <= |t.chunkOffsets|
  {
    if c == 0 then [] else
      PlacedGrows(t, c - 1, c);
      PacketsOf(t, scale, c - 1) +
      PacketsOfChunk(t, scale, t.chunkOffsets[c - 1], Placed(t, c - 1), Placed(t, c))
  }

  /** Sample `i` is what packet `i` carries. */
  ghost predicate Carries(t: Table, scale: u32, p: PacketRef, i: nat)
    requires Parsed(t) && i < |t.sizes|
  {
    && p.size == t.sizes[i] && p.keyframe == t.keyframes[i]
    && p.pts.units == TimingAt(t, i).pts && p.dts.units == TimingAt(t, i).dts &&
       p.duration.units == TimingAt(t, i).duration
    && p.pts.scale == p.dts.scale == p.duration.scale == scale
  }

  lemma {:induction false} ChunkPacketAt(t: Table, scale: u32, chunkOffset: u64, first: nat, i: nat, k: nat)
    requires Parsed(t) && first <= k < i <= |t.sizes|
    ensures |PacketsOfChunk(t, scale, chunkOffset, first, i)| == i - first
    ensures PacketsOfChunk(t, scale, chunkOffset, first, i)[k - first] == PacketOf(t, scale, k, chunkOffset, first)
    decreases i
  {
    ChunkPacketCount(t, scale, chunkOffset, first, i - 1);
    if k < i - 1 { ChunkPacketAt(t, scale, chunkOffset, first, i - 1, k); }
  }

  lemma {:induction false} ChunkPacketCount(t: Table, scale: u32, chunkOffset: u64, first: nat, i: nat)
    requires Parsed(t) && first <= i <= |t.sizes|
    ensures |PacketsOfChunk(t, scale, chunkOffset, first, i)| == i - first
    decreases i
  {
    if first < i { ChunkPacketCount(t, scale, chunkOffset, first, i - 1); }
  }

  lemma {:induction false} PacketCount(t: Table, scale: u32, c: nat)
    requires Parsed(t) && c <= |t.chunkOffsets|
    ensures |PacketsOf(t, scale, c)| == Placed(t, c)
  {
    if c > 0 {
      PacketCount(t, scale, c - 1);
      PlacedGrows(t, c - 1, c);
      ChunkPacketCount(t, scale, t.chunkOffsets[c - 1], Placed(t, c - 1), Placed(t, c));
    }
  }

  lemma {:induction false} PacketOfCarries(t: Table, scale: u32, i: nat, chunkOffset: u64, first: nat)
    requires Parsed(t) && first <= i < |t.sizes|
    ensures Carries(t, scale, PacketOf(t, scale, i, chunkOffset, first), i)
  {
    hide MinTime, RawDts, SizeSum;
  }

  /** Packet `i` is the packet of sample `i` in chunk `b`. */
  ghost predicate FromChunk(t: Table, scale: u32, p: PacketRef, i: nat, b: nat)
    requires Parsed(t) && 1 <= b <= |t.chunkOffsets|
  {
    Placed(t, b - 1) <= i < Placed(t, b) && p == PacketOf(t, scale, i, t.chunkOffsets[b - 1], Placed(t, b - 1))
  }

  lemma {:induction false} PacketComesFrom(t: Table, scale: u32, c: nat, i: nat) returns (b: nat)
    requires Parsed(t) && c <= |t.chunkOffsets| && i < Placed(t, c)
    ensures |PacketsOf(t, scale, c)| == Placed(t, c)
    ensures 1 <= b <= c && FromChunk(t, scale, PacketsOf(t, scale, c)[i], i, b)
  {
    hide PacketOf, Parsed, PacketsOfChunk;
    PacketCount(t, scale, c);
    PacketCount(t, scale, c - 1);
    PlacedGrows(t, c - 1, c);
    if i < Placed(t, c - 1) {
      b := PacketComesFrom(t, scale, c - 1, i);
    } else {
      b := c;
      ChunkPacketAt(t, scale, t.chunkOffsets[c - 1], Placed(t, c - 1), Placed(t, c), i);
    }
  }

  /** Packet `i` is sample `i`, at its chunk's offset plus the sizes of the chunk's earlier samples. */
  lemma {:induction false} PacketCarriesSample(t: Table, scale: u32, c: nat, i: nat)
    requires Parsed(t) && c <= |t.chunkOffsets| && i < Placed(t, c)
    ensures |PacketsOf(t, scale, c)| == Placed(t, c)
    ensures Carries(t, scale, PacketsOf(t, scale, c)[i], i)
    ensures exists b :: 1 <= b <= c && Placed(t, b - 1) <= i < Placed(t, b) &&
                        PacketsOf(t, scale, c)[i] == PacketOf(t, scale, i, t.chunkOffsets[b - 1], Placed(t, b - 1))
  {
    hide PacketOf, Carries, PacketsOf, Placed, TimingAt;
    var b := PacketComesFrom(t, scale, c, i);
    PacketOfCarries(t, scale, i, t.chunkOffsets[b - 1], Placed(t, b - 1));
  }

  // ----- where the packets lie -----

  lemma {:induction false} SizeSumStep(t: Table, first: nat, i: nat)
    requires first <= i < |t.sizes|
    ensures SizeSum(t, first, first) == 0 && SizeSum(t, first, i + 1) == SizeSum(t, first, i) + t.sizes[i]
  {
  }

  lemma {:induction false} PacketOfNext(t: Table, scale: u32, i: nat, chunkOffset: u64, first: nat)
    requires Parsed(t) && first <= i < |t.sizes|
    ensures PacketOf(t, scale, first, chunkOffset, first).sourceOffset == chunkOffset
    ensures i + 1 < |t.sizes| ==>
              var p, q := PacketOf(t, scale, i, chunkOffset, first), PacketOf(t, scale, i + 1, chunkOffset, first);
              q.sourceOffset == SatAdd(p.sourceOffset, p.size)
  {
    hide Parsed, TimingAt, SizeSum;
    SizeSumStep(t, first, i);
  }

  /** The packets `first..end` lie one behind the other from an offset on; an end behind 64 bits reads as the last. */
  ghost predicate OneRange(packets: seq<PacketRef>, first: nat, end: nat, offset: u64)
    requires first <= end <= |packets|
  {
    && (first < end ==> packets[first].sourceOffset == offset)
    && forall i :: first <= i < end - 1 ==>
         packets[i + 1].sourceOffset == SatAdd(packets[i].sourceOffset, packets[i].size)
  }

  lemma {:induction false} PacketAt(t: Table, scale: u32, c: nat, b: nat, i: nat)
    requires Parsed(t) && 1 <= b <= c <= |t.chunkOffsets| && Placed(t, b - 1) <= i < Placed(t, b) <= Placed(t, c)
    ensures |PacketsOf(t, scale, c)| == Placed(t, c)
    ensures PacketsOf(t, scale, c)[i] == PacketOf(t, scale, i, t.chunkOffsets[b - 1], Placed(t, b - 1))
  {
    hide PacketOf, PacketsOf, Placed;
    PacketCount(t, scale, c);
    var a := PacketComesFrom(t, scale, c, i);
    if a < b { PlacedGrows(t, a, b - 1); }
    if b < a { PlacedGrows(t, b, a - 1); }
  }

  /** The packets of every chunk are one byte range, from the chunk's offset on, each behind the one before it. */
  lemma {:induction false} ChunkIsOneRange(t: Table, scale: u32, c: nat, b: nat)
    requires Parsed(t) && 1 <= b <= c <= |t.chunkOffsets|
    ensures |PacketsOf(t, scale, c)| == Placed(t, c) && Placed(t, b - 1) <= Placed(t, b) <= Placed(t, c)
    ensures OneRange(PacketsOf(t, scale, c), Placed(t, b - 1), Placed(t, b), t.chunkOffsets[b - 1])
  {
    hide PacketOf, PacketsOf, Placed, TimingAt, SizeSum;
    PacketCount(t, scale, c);
    PlacedGrows(t, b - 1, b);
    PlacedGrows(t, b, c);
    var packets, first, end, offset := PacketsOf(t, scale, c), Placed(t, b - 1), Placed(t, b), t.chunkOffsets[b - 1];
    if first < end {
      PacketAt(t, scale, c, b, first);
      PacketOfNext(t, scale, first, offset, first);
    }
    forall i | first <= i < end - 1
      ensures packets[i + 1].sourceOffset == SatAdd(packets[i].sourceOffset, packets[i].size)
    {
      PacketAt(t, scale, c, b, i);
      PacketAt(t, scale, c, b, i + 1);
      PacketOfNext(t, scale, i, offset, first);
    }
  }

  /** With rows in ascending order a chunk holds as many samples as the last row says whose first chunk is at most its
      number (the first row when there is none), or as many as are left. */
  lemma {:induction false} ChunkHolds(t: Table, c: nat, row: nat)
    requires t.sampleToChunk != [] && c >= 1 && Ascending(t.sampleToChunk) && row < |t.sampleToChunk|
    requires row > 0 ==> t.sampleToChunk[row].firstChunk <= c
    requires row + 1 < |t.sampleToChunk| ==> c < t.sampleToChunk[row + 1].firstChunk
    ensures Placed(t, 0) == 0
    ensures Placed(t, c) == Min(|t.sizes|, Placed(t, c - 1) + t.sampleToChunk[row].samplesPerChunk)
  {
    var e := EntryFor(t, c);
    EntryInForce(t, c);
    assert row <= e;
    assert row + 1 < |t.sampleToChunk| ==> !(row + 1 <= e);
  }

  method IntoPackets(t: Table, scale: u32) returns (packets: seq<PacketRef>)
    requires Parsed(t)
    ensures packets == PacketsOf(t, scale, |t.chunkOffsets|)
  {
    packets := [];
    var timing := NormalizedTiming(t);
    var sampleIndex: nat, entry: nat := 0, 0;
    for c := 0 to |t.chunkOffsets|
      invariant entry == EntryFor(t, c) && sampleIndex == Placed(t, c)
      invariant packets == PacketsOf(t, scale, c)
    {
      entry := AdvanceSampleToChunk(t, entry, c + 1);
      var before := packets;
      packets, sampleIndex := ChunkIntoPackets(t, scale, timing.value, before, c, sampleIndex, entry);
      if sampleIndex >= |t.sizes| {
        AllPlaced(t, scale, c + 1, |t.chunkOffsets|);
        return;
      }
    }
  }

  /** The packets of one chunk, appended. */
  method ChunkIntoPackets(t: Table, scale: u32, timing: seq<Timing>, before: seq<PacketRef>, c: nat, first: nat,
                          entry: nat)
    returns (packets: seq<PacketRef>, sampleIndex: nat)
    requires Parsed(t) && c < |t.chunkOffsets| && first == Placed(t, c) && entry == EntryFor(t, c + 1)
    requires |timing| == |t.sizes| && forall i :: 0 <= i < |t.sizes| ==> timing[i] == TimingAt(t, i)
    ensures sampleIndex == Placed(t, c + 1)
    ensures first <= sampleIndex
    ensures packets == before + PacketsOfChunk(t, scale, t.chunkOffsets[c], first, sampleIndex)
  {
    packets, sampleIndex := before, first;
    var offsetInChunk: u64 := 0;
    var perChunk := t.sampleToChunk[entry].samplesPerChunk;
    for k := 0 to perChunk
      invariant sampleIndex == first + k <= |t.sizes|
      invariant offsetInChunk == Min(U64_MAX, SizeSum(t, first, sampleIndex))
      invariant packets == before + PacketsOfChunk(t, scale, t.chunkOffsets[c], first, sampleIndex)
    {
      if sampleIndex >= |t.sizes| { return; }
      var m := timing[sampleIndex];
      TimingFits(t, sampleIndex);
      packets := packets + [PacketRef(SatAdd(t.chunkOffsets[c], offsetInChunk), t.sizes[sampleIndex],
                                      MediaTime(m.pts, scale), MediaTime(m.dts, scale), MediaTime(m.duration, scale),
                                      t.keyframes[sampleIndex])];
      offsetInChunk := SatAdd(offsetInChunk, t.sizes[sampleIndex]);
      sampleIndex := sampleIndex + 1;
    }
  }

  lemma {:induction false} AllPlaced(t: Table, scale: u32, b: nat, c: nat)
    requires Parsed(t) && b <= c <= |t.chunkOffsets| && Placed(t, b) == |t.sizes|
    ensures PacketsOf(t, scale, c) == PacketsOf(t, scale, b)
    decreases c
  {
    if b < c {
      AllPlaced(t, scale, b, c - 1);
      PlacedGrows(t, b, c - 1);
    }
  }

  // ----- chunk plans -----

  function StartMs(t: Table, scale: u32, i: nat): u64
    requires Parsed(t) && i < |t.sizes|
  {
    TimingFits(t, i);
    ToMillis(scale, TimingAt(t, i).pts)
  }

  function EndMs(t: Table, scale: u32, i: nat): u64
    requires Parsed(t) && i < |t.sizes|
  {
    TimingFits(t, i);
    ToMillis(scale, SatAdd(TimingAt(t, i).pts, t.durations[i]))
  }

  /** The chunks closed so far, and the one still open. */
  datatype Planner = Planner(chunks: seq<NativeChunk>, start: nat, startMs: u64, lastEndMs: u64, keyAligned: bool)

  function Closed(p: Planner, end: nat): seq<NativeChunk> {
    p.chunks + [NativeChunk(|p.chunks|, p.startMs, SatSub(p.lastEndMs, p.startMs), p.start, end, p.keyAligned)]
  }

  /** The planner after the first `i` samples. */
  function PlanAfter(t: Table, scale: u32, targetMs: u64, i: nat): Planner
    requires Parsed(t) && i <= |t.sizes| && t.sizes != []
  {
    if i == 0 then Planner([], 0, 0, 0, t.keyframes[0])
    else PlanStep(t, scale, targetMs, PlanAfter(t, scale, targetMs, i - 1), i - 1)
  }

  /** Takes sample `i` in, behind a cut where one is due. */
  function PlanStep(t: Table, scale: u32, targetMs: u64, p: Planner, i: nat): Planner
    requires Parsed(t) && i < |t.sizes|
  {
    var ms := StartMs(t, scale, i);
    var q := if i > p.start && t.keyframes[i] && SatSub(ms, p.startMs) >= targetMs
             then Planner(Closed(p, i), i, ms, p.lastEndMs, true) else p;
    q.(lastEndMs := EndMs(t, scale, i))
  }

  /** The plan of a table: no chunks without samples or target. */
  function ChunkPlan(t: Table, scale: u32, targetMs: u64): seq<NativeChunk>
    requires Parsed(t)
  {
    if t.sizes == [] || targetMs == 0 then []
    else Closed(PlanAfter(t, scale, targetMs, Placed(t, |t.chunkOffsets|)), Placed(t, |t.chunkOffsets|))
  }

  method PlanChunks(t: Table, scale: u32, targetMs: u64) returns (chunks: seq<NativeChunk>)
    requires Parsed(t)
    ensures chunks == ChunkPlan(t, scale, targetMs)
  {
    hide PlanAfter, EntryFor, TimingAt, Advance;
    if t.sizes == [] || targetMs == 0 { return []; }
    var timing := NormalizedTiming(t);
    var p := Planner([], 0, 0, 0, t.keyframes[0]);
    PlanStarts(t, scale, targetMs);
    var sampleIndex: nat, entry: nat, c: nat := 0, 0, 0;
    while c < |t.chunkOffsets|
      invariant c <= |t.chunkOffsets| && entry == EntryFor(t, c) && sampleIndex == Placed(t, c)
      invariant p == PlanAfter(t, scale, targetMs, sampleIndex)
    {
      EntryStep(t, c);
      entry := AdvanceSampleToChunk(t, entry, c + 1);
      var perChunk := t.sampleToChunk[entry].samplesPerChunk;
      p, sampleIndex := PlanChunkSamples(t, scale, targetMs, timing.value, p, sampleIndex, perChunk);
      if sampleIndex >= |t.sizes| {
        PlacedGrows(t, c + 1, |t.chunkOffsets|);
        return Closed(p, sampleIndex);
      }
      c := c + 1;
    }
    return Closed(p, sampleIndex);
  }

  lemma {:induction false} PlanStarts(t: Table, scale: u32, targetMs: u64)
    requires Parsed(t) && t.sizes != []
    ensures PlanAfter(t, scale, targetMs, 0) == Planner([], 0, 0, 0, t.keyframes[0])
    ensures EntryFor(t, 0) == 0
  {
  }

  lemma {:induction false} EntryStep(t: Table, c: nat)
    requires t.sampleToChunk != []
    ensures EntryFor(t, c + 1) == Advance(t, EntryFor(t, c), c + 1) < |t.sampleToChunk|
  {
    AdvanceStays(t, EntryFor(t, c), c + 1);
  }

  /** The samples of one chunk, as many as are left. */
  method PlanChunkSamples(t: Table, scale: u32, targetMs: u64, timing: seq<Timing>, before: Planner, first: nat,
                          perChunk: nat)
    returns (p: Planner, sampleIndex: nat)
    requires Parsed(t) && t.sizes != [] && first <= |t.sizes| && before == PlanAfter(t, scale, targetMs, first)
    requires |timing| == |t.sizes| && forall i :: 0 <= i < |t.sizes| ==> timing[i] == TimingAt(t, i)
    ensures sampleIndex == Min(|t.sizes|, first + perChunk) && p == PlanAfter(t, scale, targetMs, sampleIndex)
  {
    hide PlanAfter, TimingAt;
    p, sampleIndex := before, first;
    for k := 0 to perChunk
      invariant sampleIndex == first + k <= |t.sizes|
      invariant p == PlanAfter(t, scale, targetMs, sampleIndex)
    {
      if sampleIndex >= |t.sizes| { return; }
      p := PlanSample(t, scale, targetMs, timing[sampleIndex], p, sampleIndex);
      sampleIndex := sampleIndex + 1;
    }
  }

  /** Cuts before sample `i` where the plan asks for it, then takes the sample in. */
  method PlanSample(t: Table, scale: u32, targetMs: u64, m: Timing, p: Planner, i: nat) returns (q: Planner)
    requires Parsed(t) && i < |t.sizes| && m == TimingAt(t, i) && p == PlanAfter(t, scale, targetMs, i)
    ensures q == PlanAfter(t, scale, targetMs, i + 1)
  {
    TimingFits(t, i);
    var startMs, endMs := ToMillis(scale, m.pts), ToMillis(scale, SatAdd(m.pts, m.duration));
    q := p;
    if i > p.start && t.keyframes[i] && SatSub(startMs, p.startMs) >= targetMs {
      q := Planner(Closed(p, i), i, startMs, p.lastEndMs, t.keyframes[i]);
    }
    q := q.(lastEndMs := endMs);
  }

  /** The next chunk begins where a non-empty one ends, on a keyframe, at least the target later. */
  ghost predicate Follows(t: Table, scale: u32, targetMs: u64, prev: NativeChunk, next: NativeChunk)
    requires Parsed(t)
  {
    && prev.first < prev.end == next.first < |t.sizes|
    && t.keyframes[next.first] && next.keyAligned
    && next.startMs == StartMs(t, scale, next.first)
    && prev.startMs + targetMs <= next.startMs
  }

  /** What a plan promises over the samples it cuts. */
  ghost predicate PlanFits(t: Table, scale: u32, targetMs: u64, chunks: seq<NativeChunk>)
    requires Parsed(t)
  {
    && (forall k :: 0 <= k < |chunks| ==> chunks[k].index == k && chunks[k].first <= chunks[k].end <= |t.sizes|)
    && (chunks != [] ==> chunks[0].first == 0)
    && (forall k :: 0 < k < |chunks| ==> Follows(t, scale, targetMs, chunks[k - 1], chunks[k]))
  }

  lemma {:induction false} ClosedFits(t: Table, scale: u32, targetMs: u64, p: Planner, next: NativeChunk)
    requires Parsed(t) && p.chunks != [] && PlanFits(t, scale, targetMs, p.chunks)
    requires next.index == |p.chunks| && next.first <= next.end <= |t.sizes|
    requires Follows(t, scale, targetMs, p.chunks[|p.chunks| - 1], next)
    ensures PlanFits(t, scale, targetMs, p.chunks + [next])
  {
  }

  /** The planner's state: the closed chunks fit, and the open one would fit wherever it is closed. */
  ghost predicate PlannerFits(t: Table, scale: u32, targetMs: u64, p: Planner, i: nat)
    requires Parsed(t)
  {
    && p.start <= i <= |t.sizes| && (p.start == i ==> i == 0)
    && PlanFits(t, scale, targetMs, p.chunks)
    && (p.chunks == [] ==> p.start == 0)
    && forall end: nat, last: u64 :: p.start <= end <= |t.sizes| && p.chunks != [] ==>
         Follows(t, scale, targetMs, p.chunks[|p.chunks| - 1],
                 NativeChunk(|p.chunks|, p.startMs, SatSub(last, p.startMs), p.start, end, p.keyAligned))
  }

  lemma {:induction false} PlannerClosedFits(t: Table, scale: u32, targetMs: u64, p: Planner, i: nat)
    requires Parsed(t) && PlannerFits(t, scale, targetMs, p, i)
    ensures PlanFits(t, scale, targetMs, Closed(p, i))
  {
    var last := Closed(p, i)[|p.chunks|];
    if p.chunks != [] { ClosedFits(t, scale, targetMs, p, last); }
  }

  lemma {:induction false} PlanAfterFits(t: Table, scale: u32, targetMs: u64, i: nat)
    requires Parsed(t) && i <= |t.sizes| && t.sizes != [] && targetMs >= 1
    ensures PlannerFits(t, scale, targetMs, PlanAfter(t, scale, targetMs, i), i)
  {
    hide PlannerFits, PlanStep, PlanAfter, TimingAt, Closed;
    if i == 0 {
      PlanStarts(t, scale, targetMs);
      FirstFits(t, scale, targetMs);
    } else {
      PlanGoesOn(t, scale, targetMs, i);
      PlanAfterFits(t, scale, targetMs, i - 1);
      StepFits(t, scale, targetMs, PlanAfter(t, scale, targetMs, i - 1), i - 1);
    }
  }

  lemma {:induction false} PlanGoesOn(t: Table, scale: u32, targetMs: u64, i: nat)
    requires Parsed(t) && 0 < i <= |t.sizes|
    ensures PlanAfter(t, scale, targetMs, i) ==
            PlanStep(t, scale, targetMs, PlanAfter(t, scale, targetMs, i - 1), i - 1)
  {
    hide PlanStep;
  }

  lemma {:induction false} FirstFits(t: Table, scale: u32, targetMs: u64)
    requires Parsed(t) && t.sizes != []
    ensures PlannerFits(t, scale, targetMs, Planner([], 0, 0, 0, t.keyframes[0]), 0)
  {
    hide Parsed;
  }

  lemma {:induction false} StepFits(t: Table, scale: u32, targetMs: u64, p: Planner, i: nat)
    requires Parsed(t) && i < |t.sizes| && targetMs >= 1 && PlannerFits(t, scale, targetMs, p, i)
    ensures PlannerFits(t, scale, targetMs, PlanStep(t, scale, targetMs, p, i), i + 1)
  {
    hide PlanFits, StartMs, EndMs;
    PlannerClosedFits(t, scale, targetMs, p, i);
  }

  /** A plan and the packets of the same table agree: the chunk ranges partition exactly the packet indices, and
      every chunk after the first starts on a keyframe packet, at least the target after the chunk before it. */
  lemma {:induction false} PlanAgreesWithPackets(t: Table, scale: u32, targetMs: u64, k: nat)
    requires Parsed(t) && t.sizes != [] && targetMs >= 1 && k < |ChunkPlan(t, scale, targetMs)|
    ensures var chunks, packets := ChunkPlan(t, scale, targetMs), PacketsOf(t, scale, |t.chunkOffsets|);
            && PlanFits(t, scale, targetMs, chunks)
            && chunks[|chunks| - 1].end == |packets|
            && chunks[k].first <= chunks[k].end <= |packets|
            && (k > 0 ==> chunks[k].first < |packets| && packets[chunks[k].first].keyframe &&
                          packets[chunks[k].first].pts.AsMillis() == chunks[k].startMs &&
                          chunks[k].startMs >= chunks[k - 1].startMs + targetMs)
  {
    var n := Placed(t, |t.chunkOffsets|);
    var chunks := ChunkPlan(t, scale, targetMs);
    PlanAfterFits(t, scale, targetMs, n);
    PlannerClosedFits(t, scale, targetMs, PlanAfter(t, scale, targetMs, n), n);
    PacketCount(t, scale, |t.chunkOffsets|);
    EndsInside(t, scale, targetMs, chunks, k);
    if k > 0 {
      assert Follows(t, scale, targetMs, chunks[k - 1], chunks[k]);
      StartsInside(t, scale, targetMs, n, k);
      PacketCarriesSample(t, scale, |t.chunkOffsets|, chunks[k].first);
    }
  }

  /** A chunk goes as far as it may: no keyframe inside it lies the target or more behind its start; it lasts to the end
      of its last sample, and says whether it starts on a keyframe. */
  ghost predicate ChunkKept(t: Table, scale: u32, targetMs: u64, c: NativeChunk)
    requires Parsed(t)
  {
    && c.first <= c.end <= |t.sizes|
    && (forall j :: c.first < j < c.end && t.keyframes[j] ==> SatSub(StartMs(t, scale, j), c.startMs) < targetMs)
    && (c.first < c.end ==>
          c.durationMs == SatSub(EndMs(t, scale, c.end - 1), c.startMs) && c.keyAligned == t.keyframes[c.first])
  }

  ghost predicate PlannerKeeps(t: Table, scale: u32, targetMs: u64, p: Planner, i: nat)
    requires Parsed(t)
  {
    && (forall c :: c in p.chunks ==> ChunkKept(t, scale, targetMs, c))
    && ChunkKept(t, scale, targetMs, Closed(p, i)[|p.chunks|])
    && p.start <= i && p.start < |t.sizes| && p.keyAligned == t.keyframes[p.start]
  }

  lemma {:induction false} StepKeeps(t: Table, scale: u32, targetMs: u64, p: Planner, i: nat)
    requires Parsed(t) && i < |t.sizes| && PlannerKeeps(t, scale, targetMs, p, i)
    ensures PlannerKeeps(t, scale, targetMs, PlanStep(t, scale, targetMs, p, i), i + 1)
  {
    hide StartMs, EndMs;
    var q := PlanStep(t, scale, targetMs, p, i);
    forall c | c in q.chunks ensures ChunkKept(t, scale, targetMs, c) {
      if c !in p.chunks { assert c == Closed(p, i)[|p.chunks|]; }
    }
  }

  lemma {:induction false} PlanKeeps(t: Table, scale: u32, targetMs: u64, i: nat)
    requires Parsed(t) && i <= |t.sizes| && t.sizes != []
    ensures PlannerKeeps(t, scale, targetMs, PlanAfter(t, scale, targetMs, i), i)
  {
    hide StartMs, EndMs;
    if i > 0 {
      hide PlannerKeeps, PlanStep;
      PlanKeeps(t, scale, targetMs, i - 1);
      StepKeeps(t, scale, targetMs, PlanAfter(t, scale, targetMs, i - 1), i - 1);
    }
  }

  /** The same of a chunk of a plan, in the packets of the table. */
  ghost predicate ChunkIsDue(chunk: NativeChunk, packets: seq<PacketRef>, targetMs: u64) {
    && chunk.first <= chunk.end <= |packets|
    && (forall j :: chunk.first < j < chunk.end && packets[j].keyframe ==>
          SatSub(packets[j].pts.AsMillis(), chunk.startMs) < targetMs)
    && (chunk.first < chunk.end ==>
          && chunk.durationMs == SatSub(LastMs(packets[chunk.end - 1]), chunk.startMs)
          && chunk.keyAligned == packets[chunk.first].keyframe)
  }

  /** When a packet's presentation is over, added in its own clock. */
  function LastMs(p: PacketRef): u64 { ToMillis(p.pts.scale, SatAdd(p.pts.units, p.duration.units)) }

  lemma {:induction false} SameTimes(t: Table, scale: u32, p: PacketRef, i: nat)
    requires Parsed(t) && i < |t.sizes| && Carries(t, scale, p, i)
    ensures p.keyframe == t.keyframes[i] && p.pts.AsMillis() == StartMs(t, scale, i) && LastMs(p) == EndMs(t, scale, i)
  {
    hide ToMillis;
    TimingFits(t, i);
  }

  lemma {:induction false} KeptIsDue(t: Table, scale: u32, targetMs: u64, c: NativeChunk, packets: seq<PacketRef>)
    requires Parsed(t) && ChunkKept(t, scale, targetMs, c) && c.end <= |packets| <= |t.sizes|
    requires forall i :: 0 <= i < |packets| ==> Carries(t, scale, packets[i], i)
    ensures ChunkIsDue(c, packets, targetMs)
  {
    hide Carries, Parsed, LastMs, StartMs, EndMs, ToMillis;
    forall j | c.first < j < c.end && packets[j].keyframe
      ensures SatSub(packets[j].pts.AsMillis(), c.startMs) < targetMs
    {
      SameTimes(t, scale, packets[j], j);
    }
    if c.first < c.end {
      SameTimes(t, scale, packets[c.first], c.first);
      SameTimes(t, scale, packets[c.end - 1], c.end - 1);
    }
  }

  /** Every chunk of a plan goes as far as it may. */
  lemma {:induction false} PlanIsDue(t: Table, scale: u32, targetMs: u64, k: nat)
    requires Parsed(t) && t.sizes != [] && targetMs >= 1 && k < |ChunkPlan(t, scale, targetMs)|
    ensures ChunkIsDue(ChunkPlan(t, scale, targetMs)[k], PacketsOf(t, scale, |t.chunkOffsets|), targetMs)
  {
    var n, m := Placed(t, |t.chunkOffsets|), |t.chunkOffsets|;
    var chunks, packets := ChunkPlan(t, scale, targetMs), PacketsOf(t, scale, m);
    PlanAgreesWithPackets(t, scale, targetMs, k);
    PlanKeeps(t, scale, targetMs, n);
    PacketCount(t, scale, m);
    ChunkOfPlan(PlanAfter(t, scale, targetMs, n), n, k);
    hide PacketOf, PacketsOf, Placed, PlanAfter, TimingAt, PlanFits, ChunkKept, ChunkIsDue, Carries, Closed;
    forall i | 0 <= i < |packets| ensures Carries(t, scale, packets[i], i) { PacketCarriesSample(t, scale, m, i); }
    KeptIsDue(t, scale, targetMs, chunks[k], packets);
  }

  lemma {:induction false} ChunkOfPlan(p: Planner, end: nat, k: nat)
    requires k < |Closed(p, end)|
    ensures Closed(p, end)[k] in p.chunks || Closed(p, end)[k] == Closed(p, end)[|p.chunks|]
  {
    if k < |p.chunks| { assert Closed(p, end)[k] == p.chunks[k]; }
  }

  lemma {:induction false} StartsInside(t: Table, scale: u32, targetMs: u64, n: nat, k: nat)
    requires Parsed(t) && t.sizes != [] && targetMs >= 1 && n <= |t.sizes|
    requires 0 < k < |Closed(PlanAfter(t, scale, targetMs, n), n)|
    ensures Closed(PlanAfter(t, scale, targetMs, n), n)[k].first < n
  {
    var p := PlanAfter(t, scale, targetMs, n);
    var chunks := Closed(p, n);
    PlanAfterFits(t, scale, targetMs, n);
    PlannerClosedFits(t, scale, targetMs, p, n);
    if k + 1 < |chunks| {
      assert Follows(t, scale, targetMs, chunks[k], chunks[k + 1]);
      EndsInside(t, scale, targetMs, chunks, k);
    }
  }

  lemma {:induction false} EndsInside(t: Table, scale: u32, targetMs: u64, chunks: seq<NativeChunk>, k: nat)
    requires Parsed(t) && PlanFits(t, scale, targetMs, chunks) && k < |chunks|
    ensures chunks[k].end <= chunks[|chunks| - 1].end
    decreases |chunks| - k
  {
    if k + 1 < |chunks| { EndsInside(t, scale, targetMs, chunks, k + 1); }
  }

  /** The windows drawn from a table's plan tile, from zero to the end of its last chunk. */
  lemma {:induction false} PlanWindowsTile(t: Table, scale: u32, targetMs: u64)
    requires Parsed(t) && t.sizes != [] && targetMs >= 1
    ensures var chunks := ChunkPlan(t, scale, targetMs);
            var ws := Windows.Collapsed(Windows.Stretched(chunks), Windows.MIN_SEGMENT_MS);
            && chunks != [] && ws != []
            && Windows.Indexed(ws) && Windows.LongEnough(ws, Windows.MIN_SEGMENT_MS)
            && Windows.Chain(ws, 0, Windows.Drawn(chunks[|chunks| - 1]).endMs)
  {
    var n := Placed(t, |t.chunkOffsets|);
    var chunks := ChunkPlan(t, scale, targetMs);
    PlanAfterFits(t, scale, targetMs, n);
    PlannerClosedFits(t, scale, targetMs, PlanAfter(t, scale, targetMs, n), n);
    FirstStartsAtZero(t, scale, targetMs, n);
    forall k | 0 < k < |chunks| ensures chunks[k - 1].startMs < chunks[k].startMs {
      assert Follows(t, scale, targetMs, chunks[k - 1], chunks[k]);
    }
    Windows.ChunkWindowsTile(chunks);
  }

  lemma {:induction false} FirstStartsAtZero(t: Table, scale: u32, targetMs: u64, i: nat)
    requires Parsed(t) && i <= |t.sizes| && t.sizes != []
    ensures var p := PlanAfter(t, scale, targetMs, i);
            Closed(p, i)[0].startMs == 0 && (p.chunks == [] ==> p.startMs == 0)
  {
    if i > 0 { FirstStartsAtZero(t, scale, targetMs, i - 1); }
  }

  ghost predicate Parsed'(t: Table) { Parsed(t) }
}
