/** Writing a media fragment: box sizes and data offsets are patched in once they are known. */
module Fmp4Writer {
  import opened Machine
  import opened Fmp4Boxes
  import opened Fmp4Parse

  datatype Track = Track(trackId: u32, baseDecodeTime: u64, samples: seq<Sample>, payload: seq<byte>)

  /** Two's complement in four bytes. */
  function BeI32(x: i32): (b: seq<byte>)
    ensures |b| == 4
  {
    BeBytes(x % 0x1_0000_0000, 4)
  }

  function SampleBytes(s: Sample): (b: seq<byte>)
    ensures |b| == 16
  {
    BeBytes(s.duration, 4) + BeBytes(s.size, 4) + BeBytes(s.flags, 4) + BeI32(s.compositionOffset)
  }

  function SampleTable(samples: seq<Sample>): (b: seq<byte>)
    ensures |b| == 16 * |samples|
  {
    if samples == [] then [] else SampleBytes(samples[0]) + SampleTable(samples[1..])
  }

  function TrunPayload(samples: seq<Sample>, dataOffset: i32): (b: seq<byte>)
    ensures |b| == 12 + 16 * |samples|
  {
    [1] + BeBytes(0xf01, 3) + BeBytes(|samples|, 4) + BeI32(dataOffset) + SampleTable(samples)
  }

  /** Version 0, the flags, and one number: all a written `tfhd` or `mfhd` holds. */
  function NumberPayload(flags: nat, n: u32): (b: seq<byte>)
    ensures |b| == 8
  {
    [0] + BeBytes(flags, 3) + BeBytes(n, 4)
  }

  /** The number behind version and flags. */
  function ReadNumber(payload: seq<byte>): Option<u32> {
    if |payload| < 8 then None else Some(ReadU32(payload[4..8]))
  }

  lemma {:induction false} NumberRoundTrip(flags: nat, n: u32)
    ensures ReadNumber(NumberPayload(flags, n)) == Some(n)
  {
    assert NumberPayload(flags, n)[4..8] == BeBytes(n, 4);
    U32RoundTrip(n);
  }

  function TfhdBox(track: Track): (b: seq<byte>)
    ensures |b| == 16
  {
    FullBox(TFHD, 0, 0x02_0000, BeBytes(track.trackId, 4))
  }

  function TfdtPayload(track: Track): (b: seq<byte>)
    ensures |b| == 12
  {
    [1] + BeBytes(0, 3) + BeBytes(track.baseDecodeTime, 8)
  }

  function TrafPayload(track: Track, dataOffset: i32): (b: seq<byte>)
    ensures |b| == 56 + 16 * |track.samples|
  {
    TfhdBox(track) + Box(TFDT, TfdtPayload(track)) + Box(TRUN, TrunPayload(track.samples, dataOffset))
  }

  function Traf(track: Track, dataOffset: i32): (b: seq<byte>)
    ensures |b| == TrafLength(track)
  {
    Box(TRAF, TrafPayload(track, dataOffset))
  }

  function TrafLength(track: Track): nat { 64 + 16 * |track.samples| }

  function Trafs(tracks: seq<Track>, offsets: seq<i32>): (b: seq<byte>)
    requires |tracks| == |offsets|
    ensures |b| == TrafsLength(tracks)
  {
    if tracks == [] then [] else Traf(tracks[0], offsets[0]) + Trafs(tracks[1..], offsets[1..])
  }

  function TrafsLength(tracks: seq<Track>): nat {
    if tracks == [] then 0 else TrafLength(tracks[0]) + TrafsLength(tracks[1..])
  }

  function MfhdBox(sequence: u32): (b: seq<byte>)
    ensures |b| == 16
  {
    FullBox(MFHD, 0, 0, BeBytes(sequence, 4))
  }

  function Moof(sequence: u32, tracks: seq<Track>, offsets: seq<i32>): (b: seq<byte>)
    requires |tracks| == |offsets|
    ensures |b| == 24 + TrafsLength(tracks)
  {
    Box(MOOF, MfhdBox(sequence) + Trafs(tracks, offsets))
  }

  function MdatHeader(n: nat): (b: seq<byte>)
    ensures |b| == 8
  {
    BeBytes(n + 8, 4) + MDAT
  }

  function PayloadLength(tracks: seq<Track>): nat {
    if tracks == [] then 0 else |tracks[0].payload| + PayloadLength(tracks[1..])
  }

  /** Where each track's data starts when the first starts at `cursor`; nothing when an offset leaves `i32`. */
  function Offsets(tracks: seq<Track>, cursor: nat): (r: Option<seq<i32>>)
    ensures r.Some? ==> |r.value| == |tracks|
    decreases |tracks|
  {
    if tracks == [] then Some([])
    else if cursor > I32_MAX then None
    else match Offsets(tracks[1..], cursor + |tracks[0].payload|)
      case None => None
      case Some(rest) => Some([cursor] + rest)
  }

  predicate SizesMatch(tracks: seq<Track>) {
    forall i :: 0 <= i < |tracks| ==> Sizes(tracks[i].samples) == |tracks[i].payload|
  }

  function HeaderBytes(sequence: u32, tracks: seq<Track>, offsets: seq<i32>): (b: seq<byte>)
    requires |tracks| == |offsets|
    ensures |b| == HeaderLength(tracks)
  {
    Moof(sequence, tracks, offsets) + MdatHeader(PayloadLength(tracks))
  }

  /** `moof` and the eight bytes of the `mdat` header. */
  function HeaderLength(tracks: seq<Track>): nat { 32 + TrafsLength(tracks) }

  function FragmentHeader(sequence: u32, tracks: seq<Track>): Result<seq<byte>, Error> {
    if tracks == [] then Err(NoTracks)
    else if !SizesMatch(tracks) then Err(SizeMismatch)
    else match Offsets(tracks, HeaderLength(tracks))
      case None => Err(TooLarge)
      case Some(offsets) =>
        if PayloadLength(tracks) + 8 > U32_MAX then Err(TooLarge) else
          var header := HeaderBytes(sequence, tracks, offsets);
          match ValidateHeader(header, PayloadLength(tracks))
          case Err(e) => Err(e)
          case Ok(_) => Ok(header)
  }

  function Payloads(tracks: seq<Track>): (b: seq<byte>)
    ensures |b| == PayloadLength(tracks)
  {
    if tracks == [] then [] else tracks[0].payload + Payloads(tracks[1..])
  }

  function MediaFragment(sequence: u32, tracks: seq<Track>): Result<seq<byte>, Error> {
    match FragmentHeader(sequence, tracks)
    case Err(e) => Err(e)
    case Ok(header) => Ok(header + Payloads(tracks))
  }

  // ----- written runs parse back -----

  lemma {:induction false} I32RoundTrip(x: i32)
    ensures ReadI32(BeI32(x)) == x
  {
    Pow256Is();
    BeRoundTrip(x % 0x1_0000_0000, 4);
  }

  lemma {:induction false} U32RoundTrip(x: u32)
    ensures ReadU32(BeBytes(x, 4)) == x
  {
    Pow256Is();
    BeRoundTrip(x, 4);
  }

  lemma {:induction false} SampleRoundTrip(s: Sample)
    ensures ReadSample(SampleBytes(s)) == s
  {
    var b := SampleBytes(s);
    Quarters(BeBytes(s.duration, 4), BeBytes(s.size, 4), BeBytes(s.flags, 4), BeI32(s.compositionOffset));
    U32RoundTrip(s.duration);
    U32RoundTrip(s.size);
    U32RoundTrip(s.flags);
    I32RoundTrip(s.compositionOffset);
  }

  lemma {:induction false} Quarters(a: seq<byte>, b: seq<byte>, c: seq<byte>, d: seq<byte>)
    requires |a| == |b| == |c| == |d| == 4
    ensures var s := a + b + c + d; s[..4] == a && s[4..8] == b && s[8..12] == c && s[12..16] == d
  {
  }

  lemma {:induction false} FirstSampleReads(head: seq<byte>, tail: seq<byte>, n: nat)
    requires |head| == 16 && n > 0 && |tail| == 16 * (n - 1)
    ensures ReadSamples(head + tail, n) == [ReadSample(head)] + ReadSamples(tail, n - 1)
  {
    hide ReadSample;
    assert (head + tail)[..16] == head && (head + tail)[16..] == tail;
  }

  lemma {:induction false} TableRoundTrip(samples: seq<Sample>)
    ensures ReadSamples(SampleTable(samples), |samples|) == samples
    decreases |samples|
  {
    if samples != [] {
      hide SampleBytes, ReadSample, ReadSamples;
      var head, tail := SampleBytes(samples[0]), SampleTable(samples[1..]);
      FirstSampleReads(head, tail, |samples|);
      SampleRoundTrip(samples[0]);
      TableRoundTrip(samples[1..]);
      assert samples == [samples[0]] + samples[1..];
    }
  }

  lemma {:induction false} TrunFields(count: seq<byte>, offset: seq<byte>, flags: seq<byte>, table: seq<byte>)
    requires |count| == |offset| == 4 && |flags| == 3
    ensures var p := [1] + flags + count + offset + table;
            p[0] == 1 && p[1..4] == flags && p[4..8] == count && p[8..12] == offset && p[12..] == table
  {
  }

  lemma {:induction false} RunFlags()
    ensures BeUint(BeBytes(0xf01, 3)) == 0xf01
  {
    Pow256Is();
    BeRoundTrip(0xf01, 3);
  }

  /** A written run reads back as the samples and the offset it was written from, as long as the reader takes that
      many. */
  lemma {:induction false} TrunRoundTrip(samples: seq<Sample>, dataOffset: i32)
    requires |samples| <= U32_MAX
    ensures InspectTrun(TrunPayload(samples, dataOffset)) ==
            if |samples| > MAX_SAMPLES then None else Some(Inspected(dataOffset, samples))
  {
    TrunFields(BeBytes(|samples|, 4), BeI32(dataOffset), BeBytes(0xf01, 3), SampleTable(samples));
    RunFlags();
    U32RoundTrip(|samples|);
    I32RoundTrip(dataOffset);
    TableRoundTrip(samples);
  }

  lemma {:induction false} TfdtRoundTrip(track: Track)
    ensures BaseDecodeTime(TfdtPayload(track)) == Some(track.baseDecodeTime)
  {
    var p := TfdtPayload(track);
    assert p[4..12] == BeBytes(track.baseDecodeTime, 8);
    Pow256Is();
    BeRoundTrip(track.baseDecodeTime, 8);
  }

  lemma {:induction false} NamesDiffer()
    ensures TFHD != TFDT && TFHD != TRUN && TFDT != TRUN && MFHD != TRAF && MOOF != MDAT
  {
    assert TFHD[2] != TFDT[2] && TFHD[1] != TRUN[1] && TFDT[1] != TRUN[1] && MFHD[0] != TRAF[0] && MOOF[1] != MDAT[1];
  }

  /** A written track is found again by the walks. */
  lemma {:induction false} TrafHolds(track: Track, dataOffset: i32)
    requires TrafLength(track) <= U32_MAX
    ensures Child(TrafPayload(track, dataOffset), TFHD) == Some(NumberPayload(0x02_0000, track.trackId))
    ensures Child(TrafPayload(track, dataOffset), TFDT) == Some(TfdtPayload(track))
    ensures Child(TrafPayload(track, dataOffset), TRUN) == Some(TrunPayload(track.samples, dataOffset))
  {
    NamesDiffer();
    ThreeBoxes(TFHD, NumberPayload(0x02_0000, track.trackId), TFDT, TfdtPayload(track),
               TRUN, TrunPayload(track.samples, dataOffset));
  }

  function TrafPayloads(tracks: seq<Track>, offsets: seq<i32>): (r: seq<seq<byte>>)
    requires |tracks| == |offsets|
    ensures |r| == |tracks|
    ensures forall i :: 0 <= i < |tracks| ==> r[i] == TrafPayload(tracks[i], offsets[i])
  {
    if tracks == [] then [] else [TrafPayload(tracks[0], offsets[0])] + TrafPayloads(tracks[1..], offsets[1..])
  }

  lemma {:induction false} TrafsAreChildren(tracks: seq<Track>, offsets: seq<i32>)
    requires |tracks| == |offsets| && TrafsLength(tracks) <= U32_MAX
    ensures Children(Trafs(tracks, offsets), TRAF) == Some(TrafPayloads(tracks, offsets))
    decreases |tracks|
  {
    if tracks != [] {
      FindFirst(TRAF, TrafPayload(tracks[0], offsets[0]), Trafs(tracks[1..], offsets[1..]));
      TrafsAreChildren(tracks[1..], offsets[1..]);
    }
  }

  lemma {:induction false} MoofHolds(sequence: u32, tracks: seq<Track>, offsets: seq<i32>)
    requires |tracks| == |offsets| && 24 + TrafsLength(tracks) <= U32_MAX
    ensures ChildPayloads(MfhdBox(sequence) + Trafs(tracks, offsets), TRAF) == TrafPayloads(tracks, offsets)
    ensures Child(MfhdBox(sequence) + Trafs(tracks, offsets), MFHD) == Some(NumberPayload(0, sequence))
  {
    NamesDiffer();
    FindFirst(MFHD, NumberPayload(0, sequence), Trafs(tracks, offsets));
    FindLater(MFHD, NumberPayload(0, sequence), Trafs(tracks, offsets), TRAF);
    TrafsAreChildren(tracks, offsets);
  }
}
