/** Reading a media fragment back: track runs and the validation of whole fragments. */
module Fmp4Parse {
  import opened Machine
  import opened Fmp4Boxes

  const MAX_SAMPLES := 2_000_000

  datatype Sample = Sample(duration: u32, size: u32, flags: u32, compositionOffset: i32)

  datatype Error =
    | NoTracks | SizeMismatch | TooLarge
    | MissingMoof | MissingMdat | BadMdat
    | BadDecodeTime | BadRun | NoSamples | NotSync
    | ZeroDuration | ZeroSize | NegativeOffset | TimeOverflow | BytesOverflow
    | OutsidePayload | Backwards

  /** Two's complement in four bytes. */
  function ReadI32(b: seq<byte>): (r: i32)
    requires |b| == 4
  {
    BeUintFits(b);
    var x := BeUint(b);
    if x >= 0x8000_0000 then x - 0x1_0000_0000 else x
  }

  lemma {:induction false} BeUintFits(b: seq<byte>)
    requires |b| <= 8
    ensures BeUint(b) < Pow256(|b|) <= 0x1_0000_0000_0000_0000
    ensures |b| == 4 ==> Pow256(|b|) == 0x1_0000_0000
    decreases |b|
  {
    if |b| > 0 { BeUintFits(b[..|b| - 1]); }
    Pow256Is();
    Pow256Grows(|b|);
  }

  lemma {:induction false} Pow256Grows(n: nat)
    requires n <= 8
    ensures Pow256(n) <= Pow256(8)
    decreases 8 - n
  {
    if n < 8 { Pow256Grows(n + 1); }
  }

  function ReadU32(b: seq<byte>): (r: u32)
    requires |b| == 4
  {
    BeUintFits(b);
    BeUint(b)
  }

  function ReadSample(b: seq<byte>): Sample
    requires |b| == 16
  {
    Sample(ReadU32(b[..4]), ReadU32(b[4..8]), ReadU32(b[8..12]), ReadI32(b[12..16]))
  }

  function ReadSamples(b: seq<byte>, n: nat): (r: seq<Sample>)
    requires |b| == 16 * n
    ensures |r| == n
    decreases n
  {
    if n == 0 then [] else [ReadSample(b[..16])] + ReadSamples(b[16..], n - 1)
  }

  datatype Inspected = Inspected(dataOffset: i32, samples: seq<Sample>)

  /** A `trun` of version 1 with exactly the fields the writer uses. */
  function InspectTrun(payload: seq<byte>): Option<Inspected> {
    if |payload| < 12 || payload[0] != 1 || BeUint(payload[1..4]) != 0xf01 then None else
      var n := ReadU32(payload[4..8]);
      if n > MAX_SAMPLES || 16 * n + 12 != |payload| then None
      else Some(Inspected(ReadI32(payload[8..12]), ReadSamples(payload[12..], n)))
  }

  lemma {:induction false} SampleAt(payload: seq<byte>, offset: nat, n: nat)
    requires n > 0 && offset <= |payload| && |payload| - offset == 16 * n
    ensures ReadSamples(payload[offset..], n) ==
            [ReadSample(payload[offset..offset + 16])] + ReadSamples(payload[offset + 16..], n - 1)
  {
    assert payload[offset..][..16] == payload[offset..offset + 16];
    assert payload[offset..][16..] == payload[offset + 16..];
  }

  /** A sample's four fields where they lie. */
  function FieldsAt(payload: seq<byte>, offset: nat): Sample
    requires offset + 16 <= |payload|
  {
    Sample(ReadU32(payload[offset..offset + 4]), ReadU32(payload[offset + 4..offset + 8]),
           ReadU32(payload[offset + 8..offset + 12]), ReadI32(payload[offset + 12..offset + 16]))
  }

  lemma {:induction false} SampleFields(payload: seq<byte>, offset: nat)
    requires offset + 16 <= |payload|
    ensures ReadSample(payload[offset..offset + 16]) == FieldsAt(payload, offset)
  {
    var b := payload[offset..offset + 16];
    assert b[..4] == b[0..4];
    SliceOfSlice(payload, offset, offset + 16, 0, 4);
    SliceOfSlice(payload, offset, offset + 16, 4, 8);
    SliceOfSlice(payload, offset, offset + 16, 8, 12);
    SliceOfSlice(payload, offset, offset + 16, 12, 16);
  }

  lemma {:induction false} SamplesAfter(payload: seq<byte>, offset: nat, n: nat, before: seq<Sample>, all: seq<Sample>)
    requires n > 0 && offset <= |payload| && |payload| - offset == 16 * n
    requires all == before + ReadSamples(payload[offset..], n)
    ensures all == before + [FieldsAt(payload, offset)] + ReadSamples(payload[offset + 16..], n - 1)
  {
    SampleAt(payload, offset, n);
    SampleFields(payload, offset);
    Regroup(before, [ReadSample(payload[offset..offset + 16])], ReadSamples(payload[offset + 16..], n - 1));
  }

  method ReadRun(payload: seq<byte>, count: nat) returns (samples: seq<Sample>)
    requires |payload| == 12 + 16 * count
    ensures samples == ReadSamples(payload[12..], count)
  {
    hide FieldsAt, ReadSamples;
    var offset: nat, left: nat := 12, count;
    samples := [];
    ghost var all := ReadSamples(payload[12..], count);
    assert [] + all == all;
    while left > 0
      invariant offset <= |payload| && |payload| - offset == 16 * left
      invariant all == samples + ReadSamples(payload[offset..], left)
    {
      SamplesAfter(payload, offset, left, samples, all);
      samples := samples + [FieldsAt(payload, offset)];
      offset, left := offset + 16, left - 1;
    }
    NothingLeftToRead(payload[offset..]);
    assert samples + [] == samples;
  }

  lemma {:induction false} NothingLeftToRead(b: seq<byte>)
    requires b == []
    ensures ReadSamples(b, 0) == []
  {
  }

  method InspectRun(payload: seq<byte>) returns (r: Option<Inspected>)
    ensures r == InspectTrun(payload)
  {
    if |payload| < 12 || payload[0] != 1 { return None; }
    if BeUint(payload[1..4]) != 0xf01 { return None; }
    var count := ReadU32(payload[4..8]);
    if count > MAX_SAMPLES || 16 * count + 12 != |payload| { return None; }
    var samples := ReadRun(payload, count);
    return Some(Inspected(ReadI32(payload[8..12]), samples));
  }

  function BaseDecodeTime(payload: seq<byte>): Option<u64> {
    if |payload| < 12 || payload[0] != 1 then None else
      BeUintFits(payload[4..12]);
      Some(BeUint(payload[4..12]))
  }

  // ----- the rules for samples -----

  function Sizes(samples: seq<Sample>): nat {
    if samples == [] then 0 else samples[0].size + Sizes(samples[1..])
  }

  function Durations(samples: seq<Sample>): nat {
    if samples == [] then 0 else samples[0].duration + Durations(samples[1..])
  }

  /** The flag of a sample that cannot be decoded on its own. */
  predicate NonSync(flags: u32) { flags / 0x100_0000 % 2 == 1 }

  /** The bytes of a run after `sum` bytes and at decode time `time`, or the first rule broken. */
  function RunBytes(samples: seq<Sample>, sum: u64, time: u64): Result<u64, Error>
    decreases |samples|
  {
    if samples == [] then Ok(sum) else
      var s := samples[0];
      if s.duration == 0 then Err(ZeroDuration)
      else if s.size == 0 then Err(ZeroSize)
      else if s.compositionOffset < 0 then Err(NegativeOffset)
      else if time + s.duration > U64_MAX then Err(TimeOverflow)
      else if sum + s.size > U64_MAX then Err(BytesOverflow)
      else RunBytes(samples[1..], sum + s.size, time + s.duration)
  }

  predicate Usable(s: Sample) { s.duration > 0 && s.size > 0 && s.compositionOffset >= 0 }

  /** A run passes exactly when every sample is usable and neither clock nor byte count overflows. */
  lemma {:induction false} RunPassesIff(samples: seq<Sample>, sum: u64, time: u64)
    ensures RunBytes(samples, sum, time).Ok? <==>
            && (forall i :: 0 <= i < |samples| ==> Usable(samples[i]))
            && time + Durations(samples) <= U64_MAX && sum + Sizes(samples) <= U64_MAX
    ensures RunBytes(samples, sum, time).Ok? ==> RunBytes(samples, sum, time).value == sum + Sizes(samples)
    decreases |samples|
  {
    if samples != [] {
      var s, rest := samples[0], samples[1..];
      assert forall i :: 0 <= i < |rest| ==> rest[i] == samples[i + 1];
      if Usable(s) && time + s.duration <= U64_MAX && sum + s.size <= U64_MAX {
        RunPassesIff(rest, sum + s.size, time + s.duration);
        assert (forall i :: 0 <= i < |samples| ==> Usable(samples[i])) <==>
               (forall i :: 0 <= i < |rest| ==> Usable(rest[i])) by {
          if forall i :: 0 <= i < |rest| ==> Usable(rest[i]) {
            forall i | 0 <= i < |samples| ensures Usable(samples[i]) { if i > 0 { assert Usable(rest[i - 1]); } }
          }
        }
      }
    }
  }

  method CheckRun(samples: seq<Sample>, time: u64) returns (r: Result<u64, Error>)
    ensures r == RunBytes(samples, 0, time)
  {
    var sum: u64, clock: u64, i: nat := 0, time, 0;
    assert samples[0..] == samples;
    while i < |samples|
      invariant i <= |samples| && RunBytes(samples, 0, time) == RunBytes(samples[i..], sum, clock)
    {
      var s := samples[i];
      assert samples[i..][0] == s && samples[i..][1..] == samples[i + 1..];
      if s.duration == 0 { return Err(ZeroDuration); }
      if s.size == 0 { return Err(ZeroSize); }
      if s.compositionOffset < 0 { return Err(NegativeOffset); }
      if clock + s.duration > U64_MAX { return Err(TimeOverflow); }
      if sum + s.size > U64_MAX { return Err(BytesOverflow); }
      sum, clock := sum + s.size, clock + s.duration;
      i := i + 1;
    }
    return Ok(sum);
  }

  // ----- fragments -----

  datatype Validation = Validation(trackCount: nat, sampleCount: u64, payloadBytes: u64)

  /** The end of a track's data, how many samples it has, and their bytes. */
  datatype Extent = Extent(dataEnd: nat, samples: u64, bytes: u64)

  /** What a run of samples says, held against the payload and the end of the data before it. */
  function ValidateRun(run: Inspected, time: u64, start: nat, end: nat, previous: nat): Result<Extent, Error> {
    if run.samples == [] then Err(NoSamples)
    else if NonSync(run.samples[0].flags) then Err(NotSync)
    else if run.dataOffset < 0 then Err(OutsidePayload)
    else match RunBytes(run.samples, 0, time)
      case Err(e) => Err(e)
      case Ok(bytes) =>
        if run.dataOffset + bytes > U64_MAX then Err(BytesOverflow)
        else if run.dataOffset < start || run.dataOffset + bytes > end then Err(OutsidePayload)
        else if run.dataOffset < previous then Err(Backwards)
        else Ok(Extent(run.dataOffset + bytes, Min(|run.samples|, U64_MAX), bytes))
  }

  function ValidateTraf(traf: seq<byte>, start: nat, end: nat, previous: nat): Result<Extent, Error> {
    match Child(traf, TFDT)
    case None => Err(BadDecodeTime)
    case Some(tfdt) =>
      match BaseDecodeTime(tfdt)
      case None => Err(BadDecodeTime)
      case Some(time) =>
        match Child(traf, TRUN)
        case None => Err(BadRun)
        case Some(trun) =>
          match InspectTrun(trun)
          case None => Err(BadRun)
          case Some(run) => ValidateRun(run, time, start, end, previous)
  }

  function FoldTrafs(trafs: seq<seq<byte>>, start: nat, end: nat, previous: nat,
                     so: Validation): Result<Validation, Error>
    decreases |trafs|
  {
    if trafs == [] then Ok(so) else
      match ValidateTraf(trafs[0], start, end, previous)
      case Err(e) => Err(e)
      case Ok(x) =>
        FoldTrafs(trafs[1..], start, end, x.dataEnd,
                  Validation(so.trackCount + 1, SatAdd(so.sampleCount, x.samples), SatAdd(so.payloadBytes, x.bytes)))
  }

  function ValidateTrafs(moof: seq<byte>, start: nat, end: nat): Result<Validation, Error> {
    var trafs := ChildPayloads(moof, TRAF);
    if trafs == [] then Err(NoTracks) else FoldTrafs(trafs, start, end, start, Validation(0, 0, 0))
  }

  method CheckTrafs(moof: seq<byte>, start: nat, end: nat) returns (r: Result<Validation, Error>)
    ensures r == ValidateTrafs(moof, start, end)
  {
    var trafs := ChildBoxPayloads(moof, TRAF);
    if trafs == [] { return Err(NoTracks); }
    var so, previous: nat, i: nat := Validation(0, 0, 0), start, 0;
    ghost var all := FoldTrafs(trafs, start, end, start, so);
    assert trafs[0..] == trafs;
    while i < |trafs|
      invariant i <= |trafs| && all == FoldTrafs(trafs[i..], start, end, previous, so)
    {
      assert trafs[i..][0] == trafs[i] && trafs[i..][1..] == trafs[i + 1..];
      var x := CheckTraf(trafs[i], start, end, previous);
      if x.Err? { return Err(x.error); }
      previous := x.value.dataEnd;
      so := Validation(so.trackCount + 1, SatAdd(so.sampleCount, x.value.samples),
                       SatAdd(so.payloadBytes, x.value.bytes));
      i := i + 1;
    }
    return Ok(so);
  }

  method CheckTraf(traf: seq<byte>, start: nat, end: nat, previous: nat) returns (r: Result<Extent, Error>)
    ensures r == ValidateTraf(traf, start, end, previous)
  {
    var tfdt := ChildBoxPayload(traf, TFDT);
    if tfdt.None? { return Err(BadDecodeTime); }
    var time := BaseDecodeTime(tfdt.value);
    if time.None? { return Err(BadDecodeTime); }
    var trun := ChildBoxPayload(traf, TRUN);
    if trun.None? { return Err(BadRun); }
    var run := InspectRun(trun.value);
    if run.None? { return Err(BadRun); }
    r := CheckTrack(run.value, time.value, start, end, previous);
  }

  method CheckTrack(run: Inspected, time: u64, start: nat, end: nat, previous: nat) returns (r: Result<Extent, Error>)
    ensures r == ValidateRun(run, time, start, end, previous)
  {
    if run.samples == [] { return Err(NoSamples); }
    if NonSync(run.samples[0].flags) { return Err(NotSync); }
    if run.dataOffset < 0 { return Err(OutsidePayload); }
    var bytes := CheckRun(run.samples, time);
    if bytes.Err? { return Err(bytes.error); }
    var dataEnd := run.dataOffset + bytes.value;
    if dataEnd > U64_MAX { return Err(BytesOverflow); }
    if run.dataOffset < start || dataEnd > end { return Err(OutsidePayload); }
    if run.dataOffset < previous { return Err(Backwards); }
    return Ok(Extent(dataEnd, Min(|run.samples|, U64_MAX), bytes.value));
  }

  /** The payload of the first box of that name at the top. */
  function TopLevel(bytes: seq<byte>, name: seq<byte>): Option<seq<byte>> {
    match Find(bytes, name) case None => None case Some(offset) => PayloadAt(bytes, offset)
  }

  /** The tracks a fragment describes. */
  function TrafsOf(bytes: seq<byte>): seq<seq<byte>> {
    match TopLevel(bytes, MOOF) case None => [] case Some(moof) => ChildPayloads(moof, TRAF)
  }

  /** A whole fragment. */
  function ValidateMedia(bytes: seq<byte>): Result<Validation, Error> {
    match TopLevel(bytes, MOOF)
    case None => Err(MissingMoof)
    case Some(moof) =>
      match Find(bytes, MDAT)
      case None => Err(MissingMdat)
      case Some(offset) =>
        match PayloadAt(bytes, offset)
        case None => Err(BadMdat)
        case Some(mdat) => ValidateAgainst(moof, offset + 8, mdat)
  }

  function ValidateAgainst(moof: seq<byte>, start: nat, mdat: seq<byte>): Result<Validation, Error> {
    ValidateTrafs(moof, start, start + |mdat|)
  }

  /** A header whose payload of `n` bytes is still to come. */
  function ValidateHeader(header: seq<byte>, n: nat): Result<Validation, Error> {
    match TopLevel(header, MOOF)
    case None => Err(MissingMoof)
    case Some(moof) =>
      if |header| < 8 || header[|header| - 4..] != MDAT || n + 8 > U64_MAX ||
          BeUint(header[|header| - 8..|header| - 4]) != n + 8
      then Err(BadMdat)
      else if |header| + n > U64_MAX then Err(TooLarge)
      else ValidateTrafs(moof, |header|, |header| + n)
  }

  method TopLevelBoxPayload(bytes: seq<byte>, name: seq<byte>) returns (r: Option<seq<byte>>)
    ensures r == TopLevel(bytes, name)
  {
    var at := FindTopLevelBox(bytes, name);
    if at.None? { return None; }
    return PayloadAt(bytes, at.value);
  }

  method ValidateFragmentHeader(header: seq<byte>, n: nat) returns (r: Result<Validation, Error>)
    ensures r == ValidateHeader(header, n)
  {
    hide TopLevel, ValidateTrafs;
    var moof := TopLevelBoxPayload(header, MOOF);
    if moof.None? { return Err(MissingMoof); }
    if |header| < 8 || header[|header| - 4..] != MDAT || n + 8 > U64_MAX { return Err(BadMdat); }
    if BeUint(header[|header| - 8..|header| - 4]) != n + 8 { return Err(BadMdat); }
    if |header| + n > U64_MAX { return Err(TooLarge); }
    r := CheckTrafs(moof.value, |header|, |header| + n);
  }

  method ValidateMediaFragment(bytes: seq<byte>) returns (r: Result<Validation, Error>)
    ensures r == ValidateMedia(bytes)
  {
    hide TopLevel, ValidateTrafs, Find, PayloadAt;
    var moof := TopLevelBoxPayload(bytes, MOOF);
    if moof.None? { return Err(MissingMoof); }
    var mdat := FindTopLevelBox(bytes, MDAT);
    if mdat.None? { return Err(MissingMdat); }
    var payload := PayloadAt(bytes, mdat.value);
    if payload.None? { return Err(BadMdat); }
    var start := mdat.value + 8;
    r := CheckTrafs(moof.value, start, start + |payload.value|);
  }
}
