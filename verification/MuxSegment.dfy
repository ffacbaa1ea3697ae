/** One HLS transport-stream segment: the budget check, the muxer, and the bound between them. */
module MuxSegment {
  import opened Machine
  import opened Media
  import opened TransportStream
  import opened Pes
  import opened MuxPayload
  import Checksum
  import CrcReceiver
  import PacketReads

  const VIDEO_PID: Pid := 0x100
  const AUDIO_PID: Pid := 0x101
  const PMT_PID: Pid := 0x1000
  const VIDEO_STREAM_ID: byte := 0xe0
  const AUDIO_STREAM_ID: byte := 0xc0
  const PRIVATE_STREAM_ID: byte := 0xbd
  const TS_CLOCK := 90_000
  const BASE_BYTES := 1024

  datatype Track = Track(packets: seq<PacketRef>, payload: PayloadKind)

  datatype Tracks = Tracks(video: Track, audio: Track)

  /** Byte limits of the input: compressed bytes of a window, and output bytes. */
  datatype Limits = Limits(compressed: usize, output: usize)

  // ----- the budget check -----

  /** What a packet is charged, before saturation. */
  function Charge(p: PacketRef, kind: PayloadKind, transportStream: bool): nat {
    if transportStream then 188 * DivCeil(Factor(kind) * p.size + PrivateBytes(kind) + 64, 176) else p.size + 16
  }

  /** The charge as computed, each step saturating. */
  function SaturatingCharge(p: PacketRef, kind: PayloadKind, transportStream: bool): usize {
    if transportStream then
      FactorRange(kind);
      SatMul(DivCeil(SatAdd(SatAdd(SatMul(p.size, Factor(kind)), Min(PrivateBytes(kind), U64_MAX)), 64), 176), 188)
    else SatAdd(p.size, 16)
  }

  lemma {:induction false} ChargeSaturates(p: PacketRef, kind: PayloadKind, transportStream: bool)
    ensures SaturatingCharge(p, kind, transportStream) == Min(U64_MAX, Charge(p, kind, transportStream))
  {
    FactorRange(kind);
    FourTimes(Factor(kind), p.size);
    SaturatesLast(Factor(kind) * p.size, PrivateBytes(kind));
  }

  /** How many bytes a payload is taken to have: what growing prefixes make of it, the parameter sets behind start codes
      or a header, and 64 more. */
  ghost predicate Load176(p: PacketRef, kind: PayloadKind, load: nat) {
    match kind
    case Avc(n, sps, pps) => load == Growth(n) * p.size + |ParameterSets(sps)| + |ParameterSets(pps)| + 64
    case Hevc(n, sets) => load == Growth(n) * p.size + |sets| + 64
    case _ => load == p.size + 7 + 64
  }

  /** A one-byte prefix that becomes a start code of four, two- or three-byte ones, and four-byte ones. */
  function Growth(prefix: nat): nat { if prefix <= 1 then 4 else if prefix <= 3 then 2 else 1 }

  lemma {:induction false} GrowthIs(prefix: nat)
    ensures DivCeil(4, Max(prefix, 1)) == Growth(prefix)
  {
    if prefix >= 4 {
      assert prefix + 3 == prefix * 1 + 3;
      DivIs(prefix + 3, prefix, 1, 3);
    }
  }

  /** A packet is charged the fewest transport packets that hold its load at 176 bytes each; in a fragment its size
      and 16 bytes. */
  lemma {:induction false} ChargeIsLeast(p: PacketRef, kind: PayloadKind) returns (load: nat, cells: nat)
    ensures Load176(p, kind, load)
    ensures Charge(p, kind, true) == 188 * cells && load <= 176 * cells < load + 176
    ensures Charge(p, kind, false) == p.size + 16
  {
    hide Factor, PrivateBytes, Load176;
    load := Factor(kind) * p.size + PrivateBytes(kind) + 64;
    cells := DivCeil(load, 176);
    LoadIs(p, kind);
  }

  lemma {:induction false} LoadIs(p: PacketRef, kind: PayloadKind)
    ensures Load176(p, kind, Factor(kind) * p.size + PrivateBytes(kind) + 64)
  {
    hide Growth, DivCeil;
    match kind
    case Avc(n, sps, pps) =>
      GrowthIs(n);
      ParameterSetsLength(sps);
      ParameterSetsLength(pps);
    case Hevc(n, _) => GrowthIs(n);
    case _ =>
  }

  lemma {:induction false} FourTimes(factor: nat, size: nat)
    requires factor <= 4
    ensures factor * size <= 4 * size
  {
  }

  /** Saturating early or late gives the same charge. */
  lemma {:induction false} SaturatesLast(scaled: nat, extra: nat)
    requires scaled <= U64_MAX
    ensures SatMul(DivCeil(SatAdd(SatAdd(scaled, Min(extra, U64_MAX)), 64), 176), 188) ==
            Min(U64_MAX, 188 * DivCeil(scaled + extra + 64, 176))
  {
    var sum := scaled + extra + 64;
    if sum > U64_MAX { assert DivCeil(sum, 176) >= U64_MAX / 176; }
  }

  function TrackCharge(packets: seq<PacketRef>, kind: PayloadKind, w: SegmentWindow, transportStream: bool): nat {
    if packets == [] then 0
    else (if InWindow(packets[0], w) then Charge(packets[0], kind, transportStream) else 0) +
         TrackCharge(packets[1..], kind, w, transportStream)
  }

  /** The output bytes the check assumes for a window. */
  function Estimate(tracks: Tracks, w: SegmentWindow, transportStream: bool): nat {
    BASE_BYTES + TrackCharge(tracks.video.packets, tracks.video.payload, w, transportStream) +
    TrackCharge(tracks.audio.packets, tracks.audio.payload, w, transportStream)
  }

  function Compressed(tracks: Tracks, w: SegmentWindow): nat {
    WindowBytes(tracks.video.packets, w) + WindowBytes(tracks.audio.packets, w)
  }

  /** The verdict of the check; sums that do not fit a machine word count as its largest value. */
  function Refusal(limits: Limits, tracks: Tracks, w: SegmentWindow, transportStream: bool): Option<MuxError> {
    if Min(U64_MAX, Compressed(tracks, w)) > limits.compressed then Some(CompressedExceeded)
    else if Min(U64_MAX, Estimate(tracks, w, transportStream)) > limits.output then Some(OutputExceeded)
    else None
  }

  method ChargeTrack(track: Track, w: SegmentWindow, transportStream: bool, output0: usize, compressed0: usize)
    returns (output: usize, compressed: usize)
    ensures output == Min(U64_MAX, output0 + TrackCharge(track.packets, track.payload, w, transportStream))
    ensures compressed == Min(U64_MAX, compressed0 + WindowBytes(track.packets, w))
  {
    hide Charge, SaturatingCharge, InWindow;
    output, compressed := output0, compressed0;
    var packets := track.packets;
    for i := 0 to |packets|
      invariant Min(U64_MAX, output + TrackCharge(packets[i..], track.payload, w, transportStream)) ==
                Min(U64_MAX, output0 + TrackCharge(packets, track.payload, w, transportStream))
      invariant Min(U64_MAX, compressed + WindowBytes(packets[i..], w)) ==
                Min(U64_MAX, compressed0 + WindowBytes(packets, w))
    {
      assert packets[i..][1..] == packets[i + 1..];
      if InWindow(packets[i], w) {
        ChargeSaturates(packets[i], track.payload, transportStream);
        compressed := SatAdd(compressed, packets[i].size);
        output := SatAdd(output, SaturatingCharge(packets[i], track.payload, transportStream));
      }
    }
    assert packets[|packets|..] == [];
  }

  method CheckMuxBudget(limits: Limits, tracks: Tracks, w: SegmentWindow,
                        transportStream: bool) returns (r: Option<MuxError>)
    ensures r == Refusal(limits, tracks, w, transportStream)
  {
    var output, compressed := ChargeTrack(tracks.video, w, transportStream, BASE_BYTES, 0);
    output, compressed := ChargeTrack(tracks.audio, w, transportStream, output, compressed);
    if compressed > limits.compressed { return Some(CompressedExceeded); }
    if output > limits.output { return Some(OutputExceeded); }
    return None;
  }

  // ----- the samples of a window -----

  datatype Sample = Sample(dtsMs: u64, video: bool, pts90: u64, dts90: u64, payload: seq<byte>)

  function To90Khz(t: MediaTime): u64 {
    if t.scale == 0 then 0 else SatMul(t.units, TS_CLOCK) / t.scale
  }

  /** The samples of a track in the window, in packet order, each by one read from number `operation` on, or the first
      reading or conversion error. */
  function SamplesOf(source: PacketReads.MediaSource, operation: nat, packets: seq<PacketRef>, kind: PayloadKind,
                     video: bool, w: SegmentWindow)
    : Result<seq<Sample>, MuxError>
    decreases |packets|
  {
    if packets == [] then Ok([])
    else if !InWindow(packets[0], w) then SamplesOf(source, operation, packets[1..], kind, video, w)
    else
      match PacketToPayload(source, operation, packets[0], kind)
      case Err(e) => Err(e)
      case Ok(payload) =>
        match SamplesOf(source, operation + 1, packets[1..], kind, video, w)
        case Err(e) => Err(e)
        case Ok(rest) => Ok([SampleOf(packets[0], video, payload)] + rest)
  }

  function SampleOf(p: PacketRef, video: bool, payload: seq<byte>): Sample {
    Sample(p.dts.AsMillis(), video, To90Khz(p.pts), To90Khz(p.dts), payload)
  }

  /** The samples of both tracks, video first. */
  function Collected(source: PacketReads.MediaSource, operation: nat, tracks: Tracks, w: SegmentWindow)
    : Result<seq<Sample>, MuxError>
  {
    match SamplesOf(source, operation, tracks.video.packets, tracks.video.payload, true, w)
    case Err(e) => Err(e)
    case Ok(video) =>
      match SamplesOf(source, operation + |video|, tracks.audio.packets, tracks.audio.payload, false, w)
      case Err(e) => Err(e)
      case Ok(audio) => Ok(video + audio)
  }

  /** A packet that can be read within the limits, and whose bytes convert. */
  ghost predicate Collectable(source: PacketReads.MediaSource, p: PacketRef, kind: PayloadKind) {
    && p.sourceOffset + p.size <= |source.bytes|
    && p.size <= source.compressedWindowBytes && p.size <= PacketReads.MAX_BUFFER_BYTES
    && Converted(source.bytes[p.sourceOffset..p.sourceOffset + p.size], p, kind).Ok?
  }

  ghost predicate AllCollectable(source: PacketReads.MediaSource, packets: seq<PacketRef>, kind: PayloadKind,
                                 w: SegmentWindow)
  {
    forall p <- packets :: InWindow(p, w) ==> Collectable(source, p, kind)
  }

  function CountIn(packets: seq<PacketRef>, w: SegmentWindow): nat {
    if packets == [] then 0 else (if InWindow(packets[0], w) then 1 else 0) + CountIn(packets[1..], w)
  }

  lemma {:induction false} PayloadIff(source: PacketReads.MediaSource, operation: nat, p: PacketRef, kind: PayloadKind)
    ensures PacketToPayload(source, operation, p, kind).Ok? <==>
            Collectable(source, p, kind) && operation !in source.faults
  {
    hide Converted;
  }

  lemma {:induction false} ClearStep(source: PacketReads.MediaSource, from: nat, n: nat)
    ensures source.Clear(from, n + 1) <==> from !in source.faults && source.Clear(from + 1, n)
  {
    if from !in source.faults && source.Clear(from + 1, n) {
      forall k | from <= k < from + n + 1 ensures k !in source.faults { if k > from { assert from + 1 <= k; } }
    }
  }

  lemma {:induction false} CollectableStep(source: PacketReads.MediaSource, packets: seq<PacketRef>, kind: PayloadKind,
                                           w: SegmentWindow)
    requires packets != []
    ensures AllCollectable(source, packets, kind, w) <==>
            && (InWindow(packets[0], w) ==> Collectable(source, packets[0], kind))
            && AllCollectable(source, packets[1..], kind, w)
  {
    hide Collectable, InWindow;
    assert packets == [packets[0]] + packets[1..];
  }

  /** A track's samples are collected exactly when every packet of the window can be, and none of the reads fails. */
  lemma {:induction false} SamplesIff(source: PacketReads.MediaSource, operation: nat, packets: seq<PacketRef>,
                                      kind: PayloadKind, video: bool, w: SegmentWindow)
    ensures var r := SamplesOf(source, operation, packets, kind, video, w);
            && (r.Ok? <==> AllCollectable(source, packets, kind, w) && source.Clear(operation, CountIn(packets, w)))
            && (r.Ok? ==> |r.value| == CountIn(packets, w))
    decreases |packets|
  {
    if packets != [] {
      hide PacketToPayload, Collectable, AllCollectable, InWindow, SampleOf, PacketReads.MediaSource.Clear;
      CollectableStep(source, packets, kind, w);
      if InWindow(packets[0], w) {
        PayloadIff(source, operation, packets[0], kind);
        ClearStep(source, operation, CountIn(packets[1..], w));
        SamplesIff(source, operation + 1, packets[1..], kind, video, w);
      } else {
        SamplesIff(source, operation, packets[1..], kind, video, w);
      }
    }
  }

  /** Both tracks are. */
  lemma {:induction false} CollectedIff(source: PacketReads.MediaSource, operation: nat, tracks: Tracks,
                                        w: SegmentWindow)
    ensures Collected(source, operation, tracks, w).Ok? <==>
            && AllCollectable(source, tracks.video.packets, tracks.video.payload, w)
            && AllCollectable(source, tracks.audio.packets, tracks.audio.payload, w)
            && source.Clear(operation, CountIn(tracks.video.packets, w) + CountIn(tracks.audio.packets, w))
  {
    hide SamplesOf, AllCollectable, CountIn;
    var video, audio := tracks.video, tracks.audio;
    SamplesIff(source, operation, video.packets, video.payload, true, w);
    SamplesIff(source, operation + CountIn(video.packets, w), audio.packets, audio.payload, false, w);
    ClearBoth(source, operation, CountIn(video.packets, w), CountIn(audio.packets, w));
  }

  lemma {:induction false} ClearBoth(source: PacketReads.MediaSource, from: nat, m: nat, n: nat)
    ensures source.Clear(from, m + n) <==> source.Clear(from, m) && source.Clear(from + m, n)
  {
  }

  // ----- the stable sort by decode time, video first -----

  predicate Before(a: Sample, b: Sample) {
    a.dtsMs < b.dtsMs || (a.dtsMs == b.dtsMs && a.video && !b.video)
  }

  /** Puts a later sample behind everything it does not precede. */
  function Inserted(s: Sample, sorted: seq<Sample>): seq<Sample> {
    if sorted == [] || Before(s, sorted[0]) then [s] + sorted else [sorted[0]] + Inserted(s, sorted[1..])
  }

  function Sorted(samples: seq<Sample>): seq<Sample> {
    if samples == [] then [] else Inserted(samples[|samples| - 1], Sorted(samples[..|samples| - 1]))
  }

  ghost predicate Ordered(samples: seq<Sample>) {
    forall i, j :: 0 <= i < j < |samples| ==> !Before(samples[j], samples[i])
  }

  /** Decode times in milliseconds rise, and where they are equal no audio comes before video. */
  ghost predicate ByTimeThenVideo(samples: seq<Sample>) {
    forall i, j :: 0 <= i < j < |samples| ==>
                     && samples[i].dtsMs <= samples[j].dtsMs
                     && (samples[i].dtsMs == samples[j].dtsMs && samples[j].video ==> samples[i].video)
  }

  /** The samples with the sort key of `like`, in order. */
  function SameKey(samples: seq<Sample>, like: Sample): seq<Sample> {
    if samples == [] then []
    else (if samples[0].dtsMs == like.dtsMs && samples[0].video == like.video then [samples[0]] else []) +
         SameKey(samples[1..], like)
  }

  lemma {:induction false} InsertedIsOrdered(s: Sample, sorted: seq<Sample>)
    requires Ordered(sorted)
    ensures Ordered(Inserted(s, sorted))
    ensures forall x <- Inserted(s, sorted) :: x == s || x in sorted
  {
    if sorted != [] && !Before(s, sorted[0]) {
      InsertedIsOrdered(s, sorted[1..]);
      forall x | x in Inserted(s, sorted[1..]) ensures !Before(x, sorted[0]) {
        if x != s { var j :| 1 <= j < |sorted| && sorted[j] == x; }
      }
    }
  }

  lemma {:induction false} InsertedKeepsKeys(s: Sample, sorted: seq<Sample>, like: Sample)
    requires Ordered(sorted)
    ensures SameKey(Inserted(s, sorted), like) == SameKey(sorted, like) + SameKey([s], like)
  {
    if sorted == [] {
      assert Inserted(s, sorted) == [s];
    } else if Before(s, sorted[0]) {
      assert ([s] + sorted)[1..] == sorted && SameKey([s][1..], like) == [];
      if s.dtsMs == like.dtsMs && s.video == like.video { NoneBehind(s, sorted); NoneAlike(sorted, s, like); }
    } else {
      InsertedKeepsKeys(s, sorted[1..], like);
      assert Inserted(s, sorted)[1..] == Inserted(s, sorted[1..]);
    }
  }

  lemma {:induction false} NoneAlike(samples: seq<Sample>, a: Sample, b: Sample)
    requires a.dtsMs == b.dtsMs && a.video == b.video
    ensures SameKey(samples, a) == SameKey(samples, b)
  {
    if samples != [] { NoneAlike(samples[1..], a, b); }
  }

  lemma {:induction false} NoneBehind(s: Sample, sorted: seq<Sample>)
    requires Ordered(sorted) && (sorted != [] ==> Before(s, sorted[0]))
    ensures SameKey(sorted, s) == []
  {
    if |sorted| > 1 {
      assert !Before(sorted[1], sorted[0]);
      NoneBehind(s, sorted[1..]);
    }
  }

  lemma {:induction false} SameKeySnoc(samples: seq<Sample>, s: Sample, like: Sample)
    ensures SameKey(samples + [s], like) == SameKey(samples, like) + SameKey([s], like)
  {
    if samples == [] {
      assert [] + [s] == [s];
    } else {
      assert (samples + [s])[1..] == samples[1..] + [s];
      SameKeySnoc(samples[1..], s, like);
    }
  }

  /** The sort orders the samples by decode time with video first and keeps equal ones in their old order. */
  lemma {:induction false} SortIsStable(samples: seq<Sample>, like: Sample)
    ensures Ordered(Sorted(samples)) && ByTimeThenVideo(Sorted(samples))
    ensures SameKey(Sorted(samples), like) == SameKey(samples, like)
  {
    if samples != [] {
      var front, s := samples[..|samples| - 1], samples[|samples| - 1];
      SortIsStable(front, like);
      InsertedIsOrdered(s, Sorted(front));
      InsertedKeepsKeys(s, Sorted(front), like);
      assert samples == front + [s];
      SameKeySnoc(front, s, like);
    }
  }

  // ----- program tables -----

  function PatBody(): seq<byte> {
    [0x00, 0xb0, 0x0d, 0x00, 0x01, 0xc1, 0x00, 0x00, 0x00, 0x01, 0xe0 + PMT_PID / 256 % 32, PMT_PID % 256]
  }

  function PatSection(): seq<byte> { Checksum.WithCrc(PatBody()) }

  function RegistrationDescriptor(a: char, b: char, c: char, d: char): seq<byte> {
    [0x05, 0x04, a as int % 256, b as int % 256, c as int % 256, d as int % 256]
  }

  function AudioDescriptors(audioType: byte): seq<byte> {
    if audioType == 0x81 then RegistrationDescriptor('A', 'C', '-', '3')
    else if audioType == 0x87 then
      RegistrationDescriptor('A', 'C', '-', '3') + RegistrationDescriptor('E', 'A', 'C', '3')
    else []
  }

  function PmtBody(videoType: byte, audioType: byte): seq<byte> {
    var descriptors := AudioDescriptors(audioType);
    var length := 5 + 4 + 2 + 5 + 5 + |descriptors| + 4;
    [0x02, 0xb0 + length / 256 % 16, length % 256, 0x00, 0x01, 0xc1, 0x00, 0x00,
     0xe0 + VIDEO_PID / 256 % 32, VIDEO_PID % 256, 0xf0, 0x00,
     videoType, 0xe0 + VIDEO_PID / 256 % 32, VIDEO_PID % 256, 0xf0, 0x00,
     audioType, 0xe0 + AUDIO_PID / 256 % 32, AUDIO_PID % 256,
     0xf0 + |descriptors| / 256 % 16, |descriptors| % 256] + descriptors
  }

  function PmtSection(videoType: byte, audioType: byte): seq<byte> { Checksum.WithCrc(PmtBody(videoType, audioType)) }

  /** A receiver accepts either table. */
  lemma {:induction false} TablesPassCheck(videoType: byte, audioType: byte)
    ensures CrcReceiver.Accepts(PatSection()) && CrcReceiver.Accepts(PmtSection(videoType, audioType))
  {
    hide CrcReceiver.Accepts, Checksum.Crc32Mpeg, PatBody, PmtBody;
    var pat, pmt := PatBody(), PmtBody(videoType, audioType);
    CrcReceiver.AcceptsIff(pat, PatSection()[|pat|..]);
    CrcReceiver.AcceptsIff(pmt, PmtSection(videoType, audioType)[|pmt|..]);
    assert pat + PatSection()[|pat|..] == PatSection();
    assert pmt + PmtSection(videoType, audioType)[|pmt|..] == PmtSection(videoType, audioType);
  }

  function StreamType(kind: PayloadKind): byte {
    match kind
    case Avc(_, _, _) => 0x1b
    case Hevc(_, _) => 0x24
    case Aac(_) => 0x0f
    case Ac3 => 0x81
    case Eac3 => 0x87
    case RawAudio => 0x06
  }

  function AudioStreamId(kind: PayloadKind): byte {
    if kind.Ac3? || kind.Eac3? || kind.RawAudio? then PRIVATE_STREAM_ID else AUDIO_STREAM_ID
  }

  // ----- the writes of a segment -----

  function PsiWrite(pid: Pid, section: seq<byte>): Write { Write(pid, true, None, [0] + section) }

  function PsiWrites(tracks: Tracks): seq<Write> {
    [PsiWrite(0, PatSection()),
     PsiWrite(PMT_PID, PmtSection(StreamType(tracks.video.payload), StreamType(tracks.audio.payload)))]
  }

  /** A sample as written once its clocks are set. */
  function PesWrite(s: Sample, stamp: Stamp, audioStreamId: byte): Write {
    if s.video then
      Write(VIDEO_PID, true, Some(stamp.dts90), PesPacket(VIDEO_STREAM_ID, stamp.pts90, stamp.dts90, s.payload))
    else Write(AUDIO_PID, true, None, PesPacket(audioStreamId, stamp.pts90, stamp.dts90, s.payload))
  }

  function StampOf(slots: Slots, s: Sample): Stamp {
    Sanitized(slots.Of(s.video), Stamp(s.video, s.pts90, s.dts90))
  }

  function PesWrites(slots: Slots, samples: seq<Sample>, audioStreamId: byte): seq<Write>
    decreases |samples|
  {
    if samples == [] then [] else
      var stamp := StampOf(slots, samples[0]);
      [PesWrite(samples[0], stamp, audioStreamId)] + PesWrites(slots.Given(stamp), samples[1..], audioStreamId)
  }

  /** Everything a segment writes: the tables, then every sample in sorted order. */
  function SegmentWrites(tracks: Tracks, samples: seq<Sample>): seq<Write> {
    PsiWrites(tracks) + PesWrites(Slots(None, None), Sorted(samples), AudioStreamId(tracks.audio.payload))
  }

  // ----- how many bytes that is -----

  function WriteBytes(w: Write): nat { 188 * Max(1, DivCeil(|w.payload|, 176)) }

  function WritesBytes(writes: seq<Write>): nat {
    if writes == [] then 0 else WritesBytes(writes[..|writes| - 1]) + WriteBytes(writes[|writes| - 1])
  }

  lemma {:induction false} AllCellsBound(writes: seq<Write>)
    ensures PACKET_BYTES * |AllCells(writes)| <= WritesBytes(writes)
  {
    if writes != [] {
      var before := AllCells(writes[..|writes| - 1]);
      var w := writes[|writes| - 1];
      AllCellsBound(writes[..|writes| - 1]);
      CellCount(w, After(0, CountPid(before, w.pid)));
    }
  }

  lemma {:induction false} WritesBytesAppend(a: seq<Write>, b: seq<Write>)
    ensures WritesBytes(a + b) == WritesBytes(a) + WritesBytes(b)
    decreases |b|
  {
    if b == [] {
      assert a + b == a;
    } else {
      assert (a + b)[..|a + b| - 1] == a + b[..|b| - 1];
      WritesBytesAppend(a, b[..|b| - 1]);
    }
  }

  lemma {:induction false} PsiBytes(tracks: Tracks)
    ensures WritesBytes(PsiWrites(tracks)) == 2 * PACKET_BYTES
  {
    hide Checksum.WithCrc;
    var writes := PsiWrites(tracks);
    assert |PatSection()| == 16;
    assert |PmtSection(StreamType(tracks.video.payload), StreamType(tracks.audio.payload))| <= 38;
    assert writes[..1][..0] == [] && writes[..1][0] == writes[0];
    assert WritesBytes(writes[..1]) == WritesBytes(writes[..1][..0]) + WriteBytes(writes[0]);
  }

  /** What the samples may take: 19 header bytes in front of each payload, in packets of 176. */
  function Load(samples: seq<Sample>): nat {
    if samples == [] then 0 else 188 * DivCeil(|samples[0].payload| + 19, 176) + Load(samples[1..])
  }

  lemma {:induction false} LoadAppend(a: seq<Sample>, b: seq<Sample>)
    ensures Load(a + b) == Load(a) + Load(b)
  {
    if a == [] {
      assert a + b == b;
    } else {
      assert (a + b)[1..] == a[1..] + b;
      LoadAppend(a[1..], b);
    }
  }

  lemma {:induction false} InsertedLoad(s: Sample, sorted: seq<Sample>)
    ensures Load(Inserted(s, sorted)) == Load(sorted) + Load([s])
  {
    if sorted != [] && !Before(s, sorted[0]) {
      assert Inserted(s, sorted)[1..] == Inserted(s, sorted[1..]);
      InsertedLoad(s, sorted[1..]);
    } else {
      assert Inserted(s, sorted) == [s] + sorted;
      LoadAppend([s], sorted);
    }
  }

  lemma {:induction false} SortedLoad(samples: seq<Sample>)
    ensures Load(Sorted(samples)) == Load(samples)
  {
    if samples != [] {
      var front, s := samples[..|samples| - 1], samples[|samples| - 1];
      SortedLoad(front);
      InsertedLoad(s, Sorted(front));
      assert samples == front + [s];
      LoadAppend(front, [s]);
    }
  }

  lemma {:induction false} PesWriteBytes(s: Sample, stamp: Stamp, audioStreamId: byte)
    ensures WriteBytes(PesWrite(s, stamp, audioStreamId)) <= 188 * DivCeil(|s.payload| + 19, 176)
  {
    PesLength(if s.video then VIDEO_STREAM_ID else audioStreamId, stamp.pts90, stamp.dts90, s.payload);
  }

  lemma {:induction false} PesWritesBytes(slots: Slots, samples: seq<Sample>, audioStreamId: byte)
    ensures WritesBytes(PesWrites(slots, samples, audioStreamId)) <= Load(samples)
    decreases |samples|
  {
    if samples != [] {
      var stamp := StampOf(slots, samples[0]);
      var first := PesWrite(samples[0], stamp, audioStreamId);
      PesWriteBytes(samples[0], stamp, audioStreamId);
      PesWritesBytes(slots.Given(stamp), samples[1..], audioStreamId);
      WritesBytesAppend([first], PesWrites(slots.Given(stamp), samples[1..], audioStreamId));
      assert WritesBytes([first]) == WritesBytes([first][..0]) + WriteBytes(first);
    }
  }

  lemma {:induction false} ChargeCovers(source: PacketReads.MediaSource, operation: nat, p: PacketRef,
                                        kind: PayloadKind)
    ensures var r := PacketToPayload(source, operation, p, kind);
            r.Ok? ==> 188 * DivCeil(|r.value| + 19, 176) <= Charge(p, kind, true)
  {
    hide PacketToPayload, PrivateBytes, Factor;
    PayloadBound(source, operation, p, kind);
  }

  lemma {:induction false} TrackLoad(source: PacketReads.MediaSource, operation: nat, packets: seq<PacketRef>,
                                     kind: PayloadKind, video: bool, w: SegmentWindow)
    ensures var r := SamplesOf(source, operation, packets, kind, video, w);
            r.Ok? ==> Load(r.value) <= TrackCharge(packets, kind, w, true)
    decreases |packets|
  {
    if packets != [] {
      hide PacketToPayload, Charge, InWindow, To90Khz;
      if InWindow(packets[0], w) {
        ChargeCovers(source, operation, packets[0], kind);
        TrackLoad(source, operation + 1, packets[1..], kind, video, w);
        var r := SamplesOf(source, operation, packets, kind, video, w);
        if r.Ok? { assert r.value[1..] == SamplesOf(source, operation + 1, packets[1..], kind, video, w).value; }
      } else {
        TrackLoad(source, operation, packets[1..], kind, video, w);
      }
    }
  }

  /** The bytes a window muxes to never exceed the estimate the check works with. */
  lemma {:induction false} EstimateCovers(source: PacketReads.MediaSource, operation: nat, tracks: Tracks,
                                          w: SegmentWindow)
    requires Collected(source, operation, tracks, w).Ok?
    ensures var cells := AllCells(SegmentWrites(tracks, Collected(source, operation, tracks, w).value));
            PACKET_BYTES * |cells| <= Estimate(tracks, w, true)
  {
    hide SamplesOf, Sorted, PesWrites, PsiWrites, AllCells, WritesBytes, Load, TrackCharge, AudioStreamId;
    var video := SamplesOf(source, operation, tracks.video.packets, tracks.video.payload, true, w).value;
    var audio := SamplesOf(source, operation + |video|, tracks.audio.packets, tracks.audio.payload, false, w).value;
    TrackLoad(source, operation, tracks.video.packets, tracks.video.payload, true, w);
    TrackLoad(source, operation + |video|, tracks.audio.packets, tracks.audio.payload, false, w);
    LoadAppend(video, audio);
    SortedLoad(video + audio);
    var id := AudioStreamId(tracks.audio.payload);
    PesWritesBytes(Slots(None, None), Sorted(video + audio), id);
    PsiBytes(tracks);
    WritesBytesAppend(PsiWrites(tracks), PesWrites(Slots(None, None), Sorted(video + audio), id));
    AllCellsBound(SegmentWrites(tracks, video + audio));
  }

  // ----- what a receiver gets -----

  /** What is sent for one sample: its clocks as sanitised, and its payload. */
  datatype Delivery = Delivery(stamp: Stamp, payload: seq<byte>)

  /** What is sent for the video, or for the audio, samples, in order. */
  function Deliveries(slots: Slots, samples: seq<Sample>, video: bool): seq<Delivery>
    decreases |samples|
  {
    if samples == [] then [] else
      var stamp := StampOf(slots, samples[0]);
      (if samples[0].video == video then [Delivery(stamp, samples[0].payload)] else []) +
      Deliveries(slots.Given(stamp), samples[1..], video)
  }

  /** A unit is a PES packet of that stream with the payload and, modulo the clock, both times of what was sent. */
  ghost predicate Arrives(unit: seq<byte>, streamId: byte, d: Delivery) {
    && DecodePes(unit).Some?
    && DecodePes(unit).value.streamId == streamId && DecodePes(unit).value.payload == d.payload
    && DecodePes(unit).value.pts == Masked(d.stamp.pts90) && DecodePes(unit).value.dts == Masked(d.stamp.dts90)
  }

  ghost predicate Carries(units: seq<seq<byte>>, streamId: byte, sent: seq<Delivery>) {
    |units| == |sent| && forall k :: 0 <= k < |units| ==> Arrives(units[k], streamId, sent[k])
  }

  lemma {:induction false} PayloadsOfAppend(a: seq<Write>, b: seq<Write>, pid: Pid)
    ensures PayloadsOf(a + b, pid) == PayloadsOf(a, pid) + PayloadsOf(b, pid)
    decreases |b|
  {
    if b == [] {
      assert a + b == a;
    } else {
      assert (a + b)[..|a + b| - 1] == a + b[..|b| - 1];
      PayloadsOfAppend(a, b[..|b| - 1], pid);
    }
  }

  lemma {:induction false} PayloadsOfOne(w: Write, pid: Pid)
    ensures PayloadsOf([w], pid) == if w.pid == pid then [w.payload] else []
  {
    assert [w][..0] == [];
    assert PayloadsOf([w][..0], pid) == [];
  }

  function MediaPid(video: bool): Pid { if video then VIDEO_PID else AUDIO_PID }

  function MediaStreamId(video: bool, audioStreamId: byte): byte {
    if video then VIDEO_STREAM_ID else audioStreamId
  }

  lemma {:induction false} OneWriteCarries(s: Sample, stamp: Stamp, audioStreamId: byte)
    ensures var w := PesWrite(s, stamp, audioStreamId);
            && w.pid == MediaPid(s.video) && w.start
            && Arrives(w.payload, MediaStreamId(s.video, audioStreamId), Delivery(stamp, s.payload))
  {
    hide DecodePes, PesPacket, Masked;
    PesRoundTrip(MediaStreamId(s.video, audioStreamId), stamp.pts90, stamp.dts90, s.payload);
  }

  lemma {:induction false} CarriesInFront(unit: seq<byte>, streamId: byte, d: Delivery, more: seq<seq<byte>>,
                                          sent: seq<Delivery>)
    requires Arrives(unit, streamId, d) && Carries(more, streamId, sent)
    ensures Carries([unit] + more, streamId, [d] + sent)
  {
    hide Arrives;
  }

  lemma {:induction false} PesWritesCarry(slots: Slots, samples: seq<Sample>, audioStreamId: byte, video: bool)
    ensures Carries(PayloadsOf(PesWrites(slots, samples, audioStreamId), MediaPid(video)),
                    MediaStreamId(video, audioStreamId), Deliveries(slots, samples, video))
    decreases |samples|
  {
    if samples != [] {
      hide Arrives, Carries, PayloadsOf, PesWrite, StampOf, MediaStreamId;
      var s, stamp := samples[0], StampOf(slots, samples[0]);
      var first, rest := PesWrite(s, stamp, audioStreamId), PesWrites(slots.Given(stamp), samples[1..], audioStreamId);
      PesWritesCarry(slots.Given(stamp), samples[1..], audioStreamId, video);
      PayloadsOfAppend([first], rest, MediaPid(video));
      PayloadsOfOne(first, MediaPid(video));
      OneWriteCarries(s, stamp, audioStreamId);
      var units, sent := PayloadsOf(rest, MediaPid(video)), Deliveries(slots.Given(stamp), samples[1..], video);
      if s.video == video {
        CarriesInFront(first.payload, MediaStreamId(video, audioStreamId), Delivery(stamp, s.payload), units, sent);
      }
      assert [] + units == units && [] + sent == sent;
    }
  }

  lemma {:induction false} TablesAside(tables: seq<Write>, media: seq<Write>, pid: Pid)
    requires (forall w <- tables :: w.start) && (forall w <- media :: w.start)
    ensures Sent(tables + media, pid) == PayloadsOf(tables, pid) + PayloadsOf(media, pid)
  {
    StartingWritesAreUnits(tables + media, pid);
    PayloadsOfAppend(tables, media, pid);
  }

  /** What is sent for one stream of a segment. */
  function SegmentDeliveries(samples: seq<Sample>, video: bool): seq<Delivery> {
    Deliveries(Slots(None, None), Sorted(samples), video)
  }

  lemma {:induction false} SegmentUnits(tracks: Tracks, samples: seq<Sample>, video: bool)
    ensures Carries(Sent(SegmentWrites(tracks, samples), MediaPid(video)),
                    MediaStreamId(video, AudioStreamId(tracks.audio.payload)), SegmentDeliveries(samples, video))
  {
    hide PsiWrites, PesWrites, PayloadsOf, Sent, Sorted, Carries, AudioStreamId, Deliveries;
    var id := AudioStreamId(tracks.audio.payload);
    var media := PesWrites(Slots(None, None), Sorted(samples), id);
    AllStart(Slots(None, None), Sorted(samples), id);
    PsiOnOtherPids(tracks, MediaPid(video));
    PesWritesCarry(Slots(None, None), Sorted(samples), id, video);
    TablesAside(PsiWrites(tracks), media, MediaPid(video));
    assert [] + PayloadsOf(media, MediaPid(video)) == PayloadsOf(media, MediaPid(video));
  }

  /** Demultiplexing a segment gives back, on the video and on the audio PID, every sample in sorted order: one PES
      packet each, with its stream, its payload and its sanitised times modulo the clock. */
  lemma {:induction false} SegmentDemuxes(tracks: Tracks, samples: seq<Sample>, video: bool)
    ensures var cells := AllCells(SegmentWrites(tracks, samples));
            && (forall c <- cells :: Fits(c))
            && DecodeAll(EncodeAll(cells)) == Some(cells)
            && Carries(Units(cells, MediaPid(video)), MediaStreamId(video, AudioStreamId(tracks.audio.payload)),
                       SegmentDeliveries(samples, video))
  {
    DemuxRoundTrip(SegmentWrites(tracks, samples));
    SegmentUnits(tracks, samples, video);
  }

  lemma {:induction false} MediaOnMediaPids(slots: Slots, samples: seq<Sample>, audioStreamId: byte, pid: Pid)
    requires pid != VIDEO_PID && pid != AUDIO_PID
    ensures PayloadsOf(PesWrites(slots, samples, audioStreamId), pid) == []
    decreases |samples|
  {
    if samples == [] {
    } else {
      hide PayloadsOf, StampOf;
      var stamp := StampOf(slots, samples[0]);
      var first := PesWrite(samples[0], stamp, audioStreamId);
      var rest := PesWrites(slots.Given(stamp), samples[1..], audioStreamId);
      MediaOnMediaPids(slots.Given(stamp), samples[1..], audioStreamId, pid);
      PayloadsOfAppend([first], rest, pid);
      PayloadsOfOne(first, pid);
    }
  }

  /** The tables as units: a zero byte in front of each section. */
  lemma {:induction false} TableUnits(tracks: Tracks)
    ensures PayloadsOf(PsiWrites(tracks), 0) == [[0] + PatSection()]
    ensures PayloadsOf(PsiWrites(tracks), PMT_PID) ==
            [[0] + PmtSection(StreamType(tracks.video.payload), StreamType(tracks.audio.payload))]
    ensures forall w <- PsiWrites(tracks) :: w.start
  {
    hide PatSection, PmtSection, StreamType, PayloadsOf;
    var writes := PsiWrites(tracks);
    assert writes == [writes[0]] + [writes[1]];
    PayloadsOfAppend([writes[0]], [writes[1]], 0);
    PayloadsOfAppend([writes[0]], [writes[1]], PMT_PID);
    PayloadsOfOne(writes[0], 0);
    PayloadsOfOne(writes[1], 0);
    PayloadsOfOne(writes[0], PMT_PID);
    PayloadsOfOne(writes[1], PMT_PID);
  }

  /** One unit whose section a receiver's check accepts. */
  ghost predicate OneCheckedTable(units: seq<seq<byte>>) {
    |units| == 1 && units[0] != [] && units[0][0] == 0 && CrcReceiver.Accepts(units[0][1..])
  }

  lemma {:induction false} CheckedTable(section: seq<byte>)
    requires CrcReceiver.Accepts(section)
    ensures OneCheckedTable([[0] + section])
  {
    assert ([0] + section)[1..] == section;
  }

  /** Demultiplexing a segment gives one program table and one program map, and a receiver's check accepts both. */
  lemma {:induction false} TablesDemux(tracks: Tracks, samples: seq<Sample>)
    ensures var cells := AllCells(SegmentWrites(tracks, samples));
            && Units(cells, 0) == [[0] + PatSection()] && OneCheckedTable(Units(cells, 0))
            && Units(cells, PMT_PID) ==
               [[0] + PmtSection(StreamType(tracks.video.payload), StreamType(tracks.audio.payload))]
            && OneCheckedTable(Units(cells, PMT_PID))
  {
    hide PsiWrites, PesWrites, PayloadsOf, Sent, Sorted, AudioStreamId, Units, AllCells, PatSection, PmtSection,
         StreamType, OneCheckedTable, CrcReceiver.Accepts;
    var id := AudioStreamId(tracks.audio.payload);
    var videoType, audioType := StreamType(tracks.video.payload), StreamType(tracks.audio.payload);
    var media := PesWrites(Slots(None, None), Sorted(samples), id);
    DemuxRoundTrip(SegmentWrites(tracks, samples));
    AllStart(Slots(None, None), Sorted(samples), id);
    TableUnits(tracks);
    TablesAside(PsiWrites(tracks), media, 0);
    TablesAside(PsiWrites(tracks), media, PMT_PID);
    MediaOnMediaPids(Slots(None, None), Sorted(samples), id, 0);
    MediaOnMediaPids(Slots(None, None), Sorted(samples), id, PMT_PID);
    TablesPassCheck(videoType, audioType);
    CheckedTable(PatSection());
    CheckedTable(PmtSection(videoType, audioType));
    assert [[0] + PatSection()] + [] == [[0] + PatSection()];
    assert [[0] + PmtSection(videoType, audioType)] + [] == [[0] + PmtSection(videoType, audioType)];
  }

  // ----- the decode times a receiver gets -----

  /** Sent decode times rise strictly, below the ceiling, and after the last given before. */
  ghost predicate SentRise(last: Option<u64>, sent: seq<Delivery>)
    decreases |sent|
  {
    sent != [] ==>
      && (last.Some? ==> last.value < sent[0].stamp.dts90 || sent[0].stamp.dts90 == U64_MAX)
      && sent[0].stamp.dts90 <= sent[0].stamp.pts90
      && SentRise(Some(sent[0].stamp.dts90), sent[1..])
  }

  lemma {:induction false} DeliveriesRise(slots: Slots, samples: seq<Sample>, video: bool)
    ensures SentRise(slots.Of(video), Deliveries(slots, samples, video))
    decreases |samples|
  {
    if samples != [] {
      var stamp := StampOf(slots, samples[0]);
      DeliveriesRise(slots.Given(stamp), samples[1..], video);
      var rest := Deliveries(slots.Given(stamp), samples[1..], video);
      assert ([Delivery(stamp, samples[0].payload)] + rest)[1..] == rest && [] + rest == rest;
    }
  }

  /** Neighbours less than one period of the clock apart, and no time at the ceiling. */
  ghost predicate Close(sent: seq<Delivery>) {
    && (forall k :: 0 <= k < |sent| ==> sent[k].stamp.dts90 < U64_MAX)
    && forall k :: 0 < k < |sent| ==> sent[k].stamp.dts90 < sent[k - 1].stamp.dts90 + CLOCK_MODULUS
  }

  /** The decode times as they arrive. */
  ghost predicate ArriveRising(sent: seq<Delivery>) {
    forall k :: 0 < k < |sent| ==> Masked(sent[k - 1].stamp.dts90) < Masked(sent[k].stamp.dts90)
  }

  /** Which turn of the clock a time falls in. */
  function Turn(clock: nat): nat { clock / CLOCK_MODULUS }

  ghost predicate SameTurn(sent: seq<Delivery>) {
    forall k :: 0 < k < |sent| ==> Turn(sent[k - 1].stamp.dts90) == Turn(sent[k].stamp.dts90)
  }

  lemma {:induction false} RisesIffSameTurn(a: nat, b: nat)
    requires a < b < a + CLOCK_MODULUS
    ensures Masked(a) < Masked(b) <==> Turn(a) == Turn(b)
  {
  }

  lemma {:induction false} SentRiseAt(last: Option<u64>, sent: seq<Delivery>, k: nat)
    requires SentRise(last, sent) && 0 < k < |sent| && sent[k].stamp.dts90 < U64_MAX
    ensures sent[k - 1].stamp.dts90 < sent[k].stamp.dts90
    decreases |sent|
  {
    if k > 1 { SentRiseAt(Some(sent[0].stamp.dts90), sent[1..], k - 1); }
  }

  /** Decode times of a stream rise at the receiver exactly when the clock does not turn over between two of them. */
  lemma {:induction false} DecodeTimesRiseIff(samples: seq<Sample>, video: bool)
    requires Close(SegmentDeliveries(samples, video))
    ensures ArriveRising(SegmentDeliveries(samples, video)) <==> SameTurn(SegmentDeliveries(samples, video))
  {
    hide SegmentDeliveries, Masked, Turn, SentRise;
    var sent := SegmentDeliveries(samples, video);
    SegmentRises(samples, video);
    forall k | 0 < k < |sent|
      ensures Masked(sent[k - 1].stamp.dts90) < Masked(sent[k].stamp.dts90) <==>
              Turn(sent[k - 1].stamp.dts90) == Turn(sent[k].stamp.dts90)
    {
      SentRiseAt(None, sent, k);
      RisesIffSameTurn(sent[k - 1].stamp.dts90, sent[k].stamp.dts90);
    }
  }

  /** From a first time below 2^29 on, they rise exactly as long as every sent time stays below it too. */
  lemma {:induction false} EarlyTimesRiseIff(samples: seq<Sample>, video: bool)
    requires Close(SegmentDeliveries(samples, video)) && SegmentDeliveries(samples, video) != []
    requires SegmentDeliveries(samples, video)[0].stamp.dts90 < CLOCK_MODULUS
    ensures var sent := SegmentDeliveries(samples, video);
            ArriveRising(sent) <==> forall k :: 0 <= k < |sent| ==> sent[k].stamp.dts90 < CLOCK_MODULUS
  {
    hide SegmentDeliveries, ArriveRising, Turn, SameTurn, Close;
    var sent := SegmentDeliveries(samples, video);
    DecodeTimesRiseIff(samples, video);
    if SameTurn(sent) {
      forall k | 0 <= k < |sent| ensures sent[k].stamp.dts90 < CLOCK_MODULUS { FirstTurnIff(sent, k); }
    } else {
      SomeTurn(sent);
    }
  }

  lemma {:induction false} FirstTurnIff(sent: seq<Delivery>, k: nat)
    requires k < |sent| && sent[0].stamp.dts90 < CLOCK_MODULUS
    ensures SameTurn(sent) ==> sent[k].stamp.dts90 < CLOCK_MODULUS
    decreases k
  {
    if k > 0 && SameTurn(sent) {
      FirstTurnIff(sent, k - 1);
      assert Turn(sent[k - 1].stamp.dts90) == Turn(sent[k].stamp.dts90);
    }
  }

  lemma {:induction false} SomeTurn(sent: seq<Delivery>)
    requires !SameTurn(sent)
    ensures exists k :: 0 <= k < |sent| && sent[k].stamp.dts90 >= CLOCK_MODULUS
  {
    var k :| 0 < k < |sent| && Turn(sent[k - 1].stamp.dts90) != Turn(sent[k].stamp.dts90);
    if sent[k].stamp.dts90 < CLOCK_MODULUS { assert sent[k - 1].stamp.dts90 >= CLOCK_MODULUS; }
  }

  lemma {:induction false} SegmentRises(samples: seq<Sample>, video: bool)
    ensures SentRise(None, SegmentDeliveries(samples, video))
  {
    hide SentRise, Deliveries, Sorted;
    DeliveriesRise(Slots(None, None), Sorted(samples), video);
  }

  lemma {:induction false} PsiOnOtherPids(tracks: Tracks, pid: Pid)
    requires pid == VIDEO_PID || pid == AUDIO_PID
    ensures PayloadsOf(PsiWrites(tracks), pid) == [] && forall w <- PsiWrites(tracks) :: w.start
  {
    hide PatSection, PmtSection, StreamType;
    var writes := PsiWrites(tracks);
    assert writes == [writes[0]] + [writes[1]];
    PayloadsOfAppend([writes[0]], [writes[1]], pid);
    PayloadsOfOne(writes[0], pid);
    PayloadsOfOne(writes[1], pid);
  }

  lemma {:induction false} AllStart(slots: Slots, samples: seq<Sample>, audioStreamId: byte)
    ensures forall w <- PesWrites(slots, samples, audioStreamId) :: w.start
    decreases |samples|
  {
    if samples != [] { AllStart(slots.Given(StampOf(slots, samples[0])), samples[1..], audioStreamId); }
  }

  // ----- the muxer -----

  /** The packets of a track, one read each. */
  method CollectTrack(source: PacketReads.MediaSource, track: Track, video: bool, w: SegmentWindow)
    returns (r: Result<seq<Sample>, MuxError>)
    requires |source.bytes| <= U64_MAX
    modifies source
    ensures r == SamplesOf(source, old(source.readOperations), track.packets, track.payload, video, w)
    ensures r.Ok? ==> source.readOperations == old(source.readOperations) + |r.value|
  {
    hide PacketToPayload, InWindow, SampleOf;
    var samples := [];
    var packets := track.packets;
    ghost var before := source.readOperations;
    ghost var all := SamplesOf(source, before, packets, track.payload, video, w);
    assert packets[0..] == packets && (all.Ok? ==> samples + all.value == all.value);
    for i := 0 to |packets|
      invariant source.readOperations == before + |samples|
      invariant var rest := SamplesOf(source, source.readOperations, packets[i..], track.payload, video, w);
                if rest.Ok? then all == Ok(samples + rest.value) else all == rest
    {
      assert packets[i..][1..] == packets[i + 1..];
      var p := packets[i];
      if InWindow(p, w) {
        var payload := ReadPayload(source, p, track.payload);
        if payload.Err? { return Err(payload.error); }
        var sample := SampleOf(p, video, payload.value);
        ghost var rest := SamplesOf(source, source.readOperations, packets[i + 1..], track.payload, video, w);
        if rest.Ok? { Regroup(samples, [sample], rest.value); }
        samples := samples + [sample];
      }
    }
    assert packets[|packets|..] == [] && samples + [] == samples;
    return Ok(samples);
  }

  method MuxOneSegment(source: PacketReads.MediaSource, limits: Limits, tracks: Tracks, w: SegmentWindow)
    returns (r: Result<seq<byte>, MuxError>)
    requires |source.bytes| <= U64_MAX
    modifies source
    ensures match Refusal(limits, tracks, w, true)
            case Some(e) => r == Err(e) && source.Count() == old(source.Count())
            case None =>
              match Collected(source, old(source.readOperations), tracks, w)
              case Err(e) => r == Err(e)
              case Ok(samples) =>
                && (forall c <- AllCells(SegmentWrites(tracks, samples)) :: Fits(c))
                && r == Ok(EncodeAll(AllCells(SegmentWrites(tracks, samples))))
                && source.readOperations == old(source.readOperations) + |samples|
    // never more than the estimate, so never more than the limit
    ensures r.Ok? ==> |r.value| <= Estimate(tracks, w, true)
    ensures r.Ok? && (limits.output < U64_MAX || |r.value| <= U64_MAX) ==> |r.value| <= limits.output
  {
    hide SamplesOf, SegmentWrites, AllCells, EncodeAll, Encode, Fits, Estimate, Compressed, DecodeAll, Units, Sent;
    ghost var before := source.readOperations;
    var refusal := CheckMuxBudget(limits, tracks, w, true);
    if refusal.Some? { return Err(refusal.value); }
    var video := CollectTrack(source, tracks.video, true, w);
    if video.Err? { return Err(video.error); }
    var audio := CollectTrack(source, tracks.audio, false, w);
    if audio.Err? { return Err(audio.error); }
    var bytes := WriteSegment(tracks, video.value + audio.value);
    EstimateCovers(source, before, tracks, w);
    DemuxRoundTrip(SegmentWrites(tracks, video.value + audio.value));
    return Ok(bytes);
  }

  method WriteSegment(tracks: Tracks, samples: seq<Sample>) returns (bytes: seq<byte>)
    ensures forall c <- AllCells(SegmentWrites(tracks, samples)) :: Fits(c)
    ensures bytes == EncodeAll(AllCells(SegmentWrites(tracks, samples)))
  {
    hide PatSection, PmtSection, PesWrites, Sorted, AudioStreamId, StreamType;
    var mux := new TsMuxer();
    mux.WriteTsPackets(0, true, None, [0] + PatSection());
    mux.WriteTsPackets(PMT_PID, true, None,
                       [0] + PmtSection(StreamType(tracks.video.payload), StreamType(tracks.audio.payload)));
    var sorted, id := Sorted(samples), AudioStreamId(tracks.audio.payload);
    assert mux.writes == PsiWrites(tracks);
    WriteSamples(mux, sorted, id);
    bytes := mux.out;
  }

  /** Stamps and writes the samples of a segment in order. */
  method WriteSamples(mux: TsMuxer, samples: seq<Sample>, audioStreamId: byte)
    requires mux.Valid()
    modifies mux, mux.continuity
    ensures mux.Valid()
    ensures mux.writes == old(mux.writes) + PesWrites(Slots(None, None), samples, audioStreamId)
  {
    var timestamps := new OutputTimestampSanitizer();
    ghost var rest := PesWrites(Slots(None, None), samples, audioStreamId);
    ghost var all := mux.writes + rest;
    assert samples[0..] == samples;
    for i := 0 to |samples|
      invariant mux.Valid()
      invariant rest == PesWrites(Slots(timestamps.lastVideoDts90, timestamps.lastAudioDts90), samples[i..],
                                  audioStreamId)
      invariant mux.writes + rest == all
    {
      var s := samples[i];
      assert samples[i..][0] == s && samples[i..][1..] == samples[i + 1..];
      var stamp := timestamps.Sanitize(Stamp(s.video, s.pts90, s.dts90));
      Regroup(mux.writes, [PesWrite(s, stamp, audioStreamId)], rest[1..]);
      rest := rest[1..];
      if s.video {
        mux.WriteTsPackets(VIDEO_PID, true, Some(stamp.dts90),
                           PesPacket(VIDEO_STREAM_ID, stamp.pts90, stamp.dts90, s.payload));
      } else {
        mux.WriteTsPackets(AUDIO_PID, true, None, PesPacket(audioStreamId, stamp.pts90, stamp.dts90, s.payload));
      }
    }
    assert mux.writes + [] == mux.writes;
  }
}
