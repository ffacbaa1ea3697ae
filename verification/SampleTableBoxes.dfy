/** The boxes of a sample table (ISO/IEC 14496-12 sections 8.6.1, 8.6.2, 8.7.3, 8.7.4 and 8.7.5). */
module SampleTableBoxes {
  import opened Machine
  import opened SampleTable

  datatype ParseLimits = ParseLimits(maxSamplesPerTrack: nat, maxTableEntries: nat, maxIndexBytes: nat)

  const DEFAULT_LIMITS := ParseLimits(2_000_000, 2_000_000, 256 * 1024 * 1024)

  function Be32(b: seq<byte>, at: nat): (r: nat)
    requires at + 4 <= |b|
    ensures r <= U32_MAX
  {
    b[at] as int * 0x100_0000 + b[at + 1] as int * 0x1_0000 + b[at + 2] as int * 0x100 + b[at + 3] as int
  }

  function Signed32(x: nat): int { if x >= 0x8000_0000 then x - 0x1_0000_0000 else x }

  /** The number of table rows, when the payload and the limits hold them. */
  function EntryCount(b: seq<byte>, header: nat, width: nat, limits: ParseLimits): (r: Option<nat>)
    requires header >= 8 && width > 0
    ensures r.Some? ==> header + r.value * width <= |b|
  {
    if |b| < header then None
    else
      var declared := Be32(b, 4);
      if declared > limits.maxTableEntries || declared > (|b| - header) / width ||
          declared * width > limits.maxIndexBytes
      then None else
        assert declared * width <= (|b| - header) / width * width <= |b| - header;
        Some(declared)
  }

  // ----- run-length tables -----

  datatype Run = Run(count: nat, value: int)

  /** Row `k` of an 8-byte-row table; the value is read signed or not. */
  function RunAt(b: seq<byte>, k: nat, signed: bool): Run
    requires 8 + (k + 1) * 8 <= |b|
  {
    var value := Be32(b, 12 + k * 8);
    Run(Be32(b, 8 + k * 8), if signed then Signed32(value) else value)
  }

  function Repeated(value: int, n: nat): (r: seq<int>)
    ensures |r| == n && forall x <- r :: x == value
  {
    seq(n, _ => value)
  }

  /** The rows `0..k` written out. */
  function Expanded(b: seq<byte>, k: nat, signed: bool): seq<int>
    requires 8 + k * 8 <= |b|
  {
    if k == 0 then [] else
      var run := RunAt(b, k - 1, signed);
      Expanded(b, k - 1, signed) + Repeated(run.value, run.count)
  }

  /** A run-length table is accepted exactly when it writes out to one value per sample. */
  function RunTable(b: seq<byte>, samples: nat, signed: bool, limits: ParseLimits): Option<seq<int>> {
    if |b| < 8 || EntryCount(b, 8, 8, limits).None? then None else
      var all := Expanded(b, EntryCount(b, 8, 8, limits).value, signed);
      if |all| == samples then Some(all) else None
  }

  lemma {:induction false} ExpandedGrows(b: seq<byte>, j: nat, k: nat, signed: bool)
    requires j <= k && 8 + k * 8 <= |b|
    ensures |Expanded(b, j, signed)| <= |Expanded(b, k, signed)|
    decreases k
  {
    if j < k { ExpandedGrows(b, j, k - 1, signed); }
  }

  lemma {:induction false} ExpandedRange(b: seq<byte>, k: nat, signed: bool)
    requires 8 + k * 8 <= |b|
    ensures forall x <- Expanded(b, k, signed) :: -0x8000_0000 <= x <= U32_MAX && (!signed ==> 0 <= x)
  {
    if k > 0 { ExpandedRange(b, k - 1, signed); }
  }

  method ParseRuns(b: seq<byte>, samples: nat, signed: bool, limits: ParseLimits) returns (r: Option<seq<int>>)
    ensures r == RunTable(b, samples, signed, limits)
  {
    if |b| < 8 { return None; }
    var entries := EntryCount(b, 8, 8, limits);
    if entries.None? { return None; }
    var values := [];
    for k := 0 to entries.value
      invariant values == Expanded(b, k, signed) && |values| <= samples
    {
      var run := RunAt(b, k, signed);
      if run.count > samples - |values| {
        ExpandedGrows(b, k + 1, entries.value, signed);
        return None;
      }
      values := values + Repeated(run.value, run.count);
    }
    return if |values| == samples then Some(values) else None;
  }

  /** Decoding deltas. */
  function Stts(b: seq<byte>, samples: nat, limits: ParseLimits): Option<seq<int>> {
    RunTable(b, samples, false, limits)
  }

  /** Composition offsets; version 1 is signed, and other versions are refused once there is a row to read. */
  function Ctts(b: seq<byte>, samples: nat, limits: ParseLimits): Option<seq<int>> {
    if |b| >= 8 && b[0] > 1 && EntryCount(b, 8, 8, limits).Some? && EntryCount(b, 8, 8, limits).value > 0 then None
    else RunTable(b, samples, |b| >= 1 && b[0] == 1, limits)
  }

  // ----- sync samples -----

  function SyncNumber(b: seq<byte>, k: nat): nat
    requires 8 + (k + 1) * 4 <= |b|
  {
    Be32(b, 8 + k * 4)
  }

  /** The samples named by the first `k` sync numbers. */
  function Named(b: seq<byte>, k: nat): set<int>
    requires 8 + k * 4 <= |b|
  {
    if k == 0 then {} else Named(b, k - 1) + {SyncNumber(b, k - 1) - 1}
  }

  /** The first `k` sync numbers are sample numbers, each once. */
  predicate SyncNumbersFit(b: seq<byte>, k: nat, samples: nat)
    requires 8 + k * 4 <= |b|
  {
    k == 0 ||
    (SyncNumbersFit(b, k - 1, samples) && 1 <= SyncNumber(b, k - 1) <= samples &&
     SyncNumber(b, k - 1) - 1 !in Named(b, k - 1))
  }

  lemma {:induction false} MisfitStays(b: seq<byte>, j: nat, k: nat, samples: nat)
    requires j <= k && 8 + k * 4 <= |b| && !SyncNumbersFit(b, j, samples)
    ensures !SyncNumbersFit(b, k, samples)
    decreases k
  {
    if j < k { MisfitStays(b, j, k - 1, samples); }
  }

  /** Every row names a sample, none twice. */
  predicate StssAccepts(b: seq<byte>, samples: nat, limits: ParseLimits) {
    && |b| >= 8 && EntryCount(b, 8, 4, limits).Some? && samples <= limits.maxSamplesPerTrack
    && SyncNumbersFit(b, EntryCount(b, 8, 4, limits).value, samples)
  }

  /** Exactly the named samples are marked. */
  ghost predicate StssGives(b: seq<byte>, samples: nat, limits: ParseLimits, marks: seq<bool>)
    requires StssAccepts(b, samples, limits)
  {
    && |marks| == samples
    && forall s :: 0 <= s < samples ==> (marks[s] <==> s in Named(b, EntryCount(b, 8, 4, limits).value))
  }

  method ParseStss(b: seq<byte>, samples: nat, limits: ParseLimits) returns (r: Option<seq<bool>>)
    ensures r.Some? <==> StssAccepts(b, samples, limits)
    ensures r.Some? ==> StssGives(b, samples, limits, r.value)
  {
    if |b| < 8 { return None; }
    var entries := EntryCount(b, 8, 4, limits);
    if entries.None? || samples > limits.maxSamplesPerTrack { return None; }
    var out := seq(samples, _ => false);
    for k := 0 to entries.value
      invariant |out| == samples && SyncNumbersFit(b, k, samples)
      invariant forall s :: 0 <= s < samples ==> (out[s] <==> s in Named(b, k))
    {
      var number := SyncNumber(b, k);
      if !(1 <= number <= samples) || out[number - 1] {
        MisfitStays(b, k + 1, entries.value, samples);
        return None;
      }
      out := out[number - 1 := true];
    }
    return Some(out);
  }

  // ----- plain rows -----

  function RowAt(b: seq<byte>, header: nat, width: nat, k: nat): nat
    requires width >= 4 && header + k * width + 4 <= |b|
  {
    Be32(b, header + k * width)
  }

  /** The declared samples fit the limits, and their sizes are there unless one size is for all. */
  predicate StszAccepts(b: seq<byte>, limits: ParseLimits) {
    && |b| >= 12 && Be32(b, 8) <= limits.maxSamplesPerTrack
    && (if Be32(b, 4) != 0 then Be32(b, 8) * 4 <= limits.maxIndexBytes else Be32(b, 8) <= (|b| - 12) / 4)
  }

  /** One size for all samples, or each its own. */
  ghost predicate StszGives(b: seq<byte>, sizes: seq<u32>)
    requires |b| >= 12
  {
    && |sizes| == Be32(b, 8)
    && forall k :: 0 <= k < |sizes| ==>
         (if Be32(b, 4) != 0 then sizes[k] == Be32(b, 4) else 12 + k * 4 + 4 <= |b| && sizes[k] == RowAt(b, 12, 4, k))
  }

  method ParseStsz(b: seq<byte>, limits: ParseLimits) returns (r: Option<seq<u32>>)
    ensures r.Some? <==> StszAccepts(b, limits)
    ensures r.Some? ==> StszGives(b, r.value)
  {
    if |b| < 12 { return None; }
    var fixed, count := Be32(b, 4), Be32(b, 8);
    if count > limits.maxSamplesPerTrack { return None; }
    if fixed != 0 {
      if count * 4 > limits.maxIndexBytes { return None; }
      return Some(seq(count, _ => fixed));
    }
    if count > (|b| - 12) / 4 { return None; }
    var out: seq<u32> := [];
    for k := 0 to count
      invariant |out| == k && forall i :: 0 <= i < k ==> 12 + i * 4 + 4 <= |b| && out[i] == RowAt(b, 12, 4, i)
    {
      out := out + [RowAt(b, 12, 4, k)];
    }
    return Some(out);
  }

  predicate StscAccepts(b: seq<byte>, limits: ParseLimits) {
    |b| >= 8 && EntryCount(b, 8, 12, limits).Some? && EntryCount(b, 8, 12, limits).value > 0
  }

  ghost predicate StscGives(b: seq<byte>, limits: ParseLimits, rows: seq<SampleToChunk>)
    requires StscAccepts(b, limits)
  {
    && |rows| == EntryCount(b, 8, 12, limits).value
    && forall k :: 0 <= k < |rows| ==>
         8 + k * 12 + 8 <= |b| && rows[k] == SampleToChunk(Be32(b, 8 + k * 12), Be32(b, 12 + k * 12))
  }

  method ParseStsc(b: seq<byte>, limits: ParseLimits) returns (r: Option<seq<SampleToChunk>>)
    ensures r.Some? <==> StscAccepts(b, limits)
    ensures r.Some? ==> StscGives(b, limits, r.value)
  {
    if |b| < 8 { return None; }
    var entries := EntryCount(b, 8, 12, limits);
    if entries.None? { return None; }
    var out: seq<SampleToChunk> := [];
    for k := 0 to entries.value
      invariant |out| == k
      invariant forall i :: 0 <= i < k ==>
                  8 + i * 12 + 8 <= |b| && out[i] == SampleToChunk(Be32(b, 8 + i * 12), Be32(b, 12 + i * 12))
    {
      out := out + [SampleToChunk(Be32(b, 8 + k * 12), Be32(b, 12 + k * 12))];
    }
    return if out == [] then None else Some(out);
  }

  /** Chunk offsets of 4 or 8 bytes. */
  function OffsetAt(b: seq<byte>, wide: bool, k: nat): (r: nat)
    requires 8 + (k + 1) * (if wide then 8 else 4) <= |b|
    ensures r <= U64_MAX
  {
    if wide then Be32(b, 8 + k * 8) * 0x1_0000_0000 + Be32(b, 12 + k * 8) else Be32(b, 8 + k * 4)
  }

  predicate OffsetsAccepts(b: seq<byte>, wide: bool, limits: ParseLimits) {
    |b| >= 8 && EntryCount(b, 8, if wide then 8 else 4, limits).Some?
  }

  ghost predicate OffsetsGives(b: seq<byte>, wide: bool, limits: ParseLimits, offsets: seq<u64>)
    requires OffsetsAccepts(b, wide, limits)
  {
    && |offsets| == EntryCount(b, 8, if wide then 8 else 4, limits).value
    && forall k :: 0 <= k < |offsets| ==>
         8 + (k + 1) * (if wide then 8 else 4) <= |b| && offsets[k] == OffsetAt(b, wide, k)
  }

  method ParseChunkOffsets(b: seq<byte>, wide: bool, limits: ParseLimits) returns (r: Option<seq<u64>>)
    ensures r.Some? <==> OffsetsAccepts(b, wide, limits)
    ensures r.Some? ==> OffsetsGives(b, wide, limits, r.value)
  {
    if |b| < 8 { return None; }
    var entries := EntryCount(b, 8, if wide then 8 else 4, limits);
    if entries.None? { return None; }
    var out: seq<u64> := [];
    for k := 0 to entries.value
      invariant |out| == k
      invariant forall i :: 0 <= i < k ==>
                8 + (i + 1) * (if wide then 8 else 4) <= |b| && out[i] == OffsetAt(b, wide, i)
    {
      out := out + [OffsetAt(b, wide, k)];
    }
    return Some(out);
  }

  // ----- the table -----

  /** The payloads of the child boxes that are present. */
  datatype Boxes = Boxes(
    stsz: Option<seq<byte>>, stts: Option<seq<byte>>, ctts: Option<seq<byte>>, stss: Option<seq<byte>>,
    stco: Option<seq<byte>>, co64: Option<seq<byte>>, stsc: Option<seq<byte>>)

  /** The chunk offsets come from the narrow box if it is there and readable, else from the wide one. */
  predicate NarrowOffsets(boxes: Boxes, limits: ParseLimits) {
    boxes.stco.Some? && OffsetsAccepts(boxes.stco.value, false, limits)
  }

  predicate WideOffsets(boxes: Boxes, limits: ParseLimits) {
    boxes.co64.Some? && OffsetsAccepts(boxes.co64.value, true, limits)
  }

  /** The boxes a table is made from: sizes, durations, rows and chunk offsets must be there and readable, composition
      offsets and sync samples readable when they are there, and all must speak of the same number of samples. */
  predicate TableAccepts(boxes: Boxes, limits: ParseLimits) {
    && boxes.stsz.Some? && StszAccepts(boxes.stsz.value, limits)
    && var n := Be32(boxes.stsz.value, 8);
       && boxes.stts.Some? && Stts(boxes.stts.value, n, limits).Some?
       && (boxes.ctts.Some? ==> Ctts(boxes.ctts.value, n, limits).Some?)
       && (boxes.stss.Some? ==> StssAccepts(boxes.stss.value, n, limits))
       && (NarrowOffsets(boxes, limits) || WideOffsets(boxes, limits))
       && boxes.stsc.Some? && StscAccepts(boxes.stsc.value, limits)
  }

  /** Every column of the table is what its box says. */
  ghost predicate TableGives(boxes: Boxes, limits: ParseLimits, t: Table)
    requires TableAccepts(boxes, limits)
  {
    var n := Be32(boxes.stsz.value, 8);
    && StszGives(boxes.stsz.value, t.sizes)
    && Stts(boxes.stts.value, n, limits) == Some(t.durations)
    && (if boxes.ctts.Some? then Ctts(boxes.ctts.value, n, limits) == Some(t.offsets) else t.offsets == Repeated(0, n))
    && (if boxes.stss.Some? then StssGives(boxes.stss.value, n, limits, t.keyframes)
        else |t.keyframes| == n && forall k <- t.keyframes :: k)
    && (if NarrowOffsets(boxes, limits) then OffsetsGives(boxes.stco.value, false, limits, t.chunkOffsets)
        else OffsetsGives(boxes.co64.value, true, limits, t.chunkOffsets))
    && StscGives(boxes.stsc.value, limits, t.sampleToChunk)
  }

  /** The table of the boxes with the limits every caller uses: accepted exactly when they are, and then of the shape
      the readers rely on. */
  method ParseWithDefaultLimits(boxes: Boxes) returns (r: Option<Table>)
    ensures r.Some? <==> TableAccepts(boxes, ParseLimits(2_000_000, 2_000_000, 0x1000_0000))
    ensures r.Some? ==> TableGives(boxes, ParseLimits(2_000_000, 2_000_000, 0x1000_0000), r.value) && Parsed(r.value)
  {
    r := ParseSampleTable(boxes, DEFAULT_LIMITS);
  }

  /** A table is accepted exactly when its boxes are, and every column is what its box says. */
  method ParseSampleTable(boxes: Boxes, limits: ParseLimits) returns (r: Option<Table>)
    ensures r.Some? <==> TableAccepts(boxes, limits)
    ensures r.Some? ==> TableGives(boxes, limits, r.value)
    ensures r.Some? && limits.maxSamplesPerTrack <= MAX_SAMPLES ==> Parsed(r.value)
  {
    hide Expanded, RunTable, OffsetsGives, StssAccepts, OffsetsAccepts, Ctts, SyncNumbersFit, Named;
    if boxes.stsz.None? || boxes.stts.None? || boxes.stsc.None? { return None; }
    var sizes := ParseStsz(boxes.stsz.value, limits);
    if sizes.None? { return None; }
    var n := |sizes.value|;
    var durations := ParseDurations(boxes.stts.value, n, limits);
    if durations.None? { return None; }
    var offsets := ParseOffsets(boxes.ctts, n, limits);
    if offsets.None? { return None; }
    var keyframes := Some(seq(n, _ => true));
    if boxes.stss.Some? { keyframes := ParseStss(boxes.stss.value, n, limits); }
    if keyframes.None? { return None; }
    var chunkOffsets: Option<seq<u64>> := None;
    if boxes.stco.Some? { chunkOffsets := ParseChunkOffsets(boxes.stco.value, false, limits); }
    if chunkOffsets.None? && boxes.co64.Some? { chunkOffsets := ParseChunkOffsets(boxes.co64.value, true, limits); }
    if chunkOffsets.None? { return None; }
    var sampleToChunk := ParseStsc(boxes.stsc.value, limits);
    if sampleToChunk.None? { return None; }
    return Some(Table(sizes.value, durations.value, offsets.value, keyframes.value, chunkOffsets.value,
                      sampleToChunk.value));
  }

  method ParseDurations(b: seq<byte>, samples: nat, limits: ParseLimits) returns (r: Option<seq<int>>)
    ensures r == Stts(b, samples, limits)
    ensures r.Some? ==> |r.value| == samples && forall d <- r.value :: 0 <= d <= U32_MAX
  {
    r := ParseRuns(b, samples, false, limits);
    if r.Some? { ExpandedRange(b, EntryCount(b, 8, 8, limits).value, false); }
  }

  method ParseOffsets(ctts: Option<seq<byte>>, samples: nat, limits: ParseLimits) returns (r: Option<seq<int>>)
    ensures r == if ctts.Some? then Ctts(ctts.value, samples, limits) else Some(Repeated(0, samples))
    ensures r.Some? ==> |r.value| == samples && forall o <- r.value :: -0x8000_0000 <= o <= U32_MAX
  {
    if ctts.None? { return Some(Repeated(0, samples)); }
    var b := ctts.value;
    if |b| < 8 { return None; }
    var entries := EntryCount(b, 8, 8, limits);
    if entries.None? { return None; }
    if b[0] > 1 && entries.value > 0 { return None; }
    ExpandedRange(b, entries.value, b[0] == 1);
    r := ParseRuns(b, samples, b[0] == 1, limits);
  }
}
