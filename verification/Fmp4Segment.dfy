/** One HLS segment as an MP4 fragment: budget, packets of the window, their bytes, and the fragment around them. */
module Fmp4Segment {
  import opened Machine
  import opened Media
  import PacketReads
  import MuxSegment
  import MuxPayload
  import opened Fmp4Parse
  import opened Fmp4Writer
  import opened Fmp4RoundTrip
  import opened Fmp4Samples
  import opened Fmp4Patching

  datatype Failure =
    | Budget(budget: MuxPayload.MuxError)
    | NoVideo
    | NoAudio
    | Reading(read: PacketReads.ReadError)
    | Writing(write: Error)

  /** The check charges a fragment exactly 16 bytes a sample and its payload. */
  lemma {:induction false} FragmentCharge(packets: seq<PacketRef>, kind: MuxPayload.PayloadKind, w: SegmentWindow)
    ensures MuxSegment.TrackCharge(packets, kind, w, false) ==
            16 * |InsideWindow(packets, w)| + PacketReads.TotalSize(InsideWindow(packets, w))
  {
    if packets != [] {
      FragmentCharge(packets[1..], kind, w);
      var rest := InsideWindow(packets[1..], w);
      if InWindow(packets[0], w) { assert ([packets[0]] + rest)[1..] == rest; } else { assert [] + rest == rest; }
    }
  }

  /** A track made of packets and their bytes. */
  ghost predicate MadeOf(t: Track, id: u32, packets: seq<PacketRef>, source: seq<byte>, timescale: u32) {
    && packets != [] && PacketReads.AllInside(source, packets)
    && t.trackId == id && t.payload == PacketReads.Selected(source, packets) && |t.samples| == |packets|
    && t.baseDecodeTime == RescaleTime(packets[0].dts.units, packets[0].dts.scale, timescale)
    && forall i :: 0 <= i < |packets| ==> MovedUp(t.samples[i], packets[i], timescale, Lowest(packets, timescale))
  }

  /** A made track of such packets shows its samples as the packets are presented. */
  lemma {:induction false} TrackShows(t: Track, id: u32, packets: seq<PacketRef>, source: seq<byte>, timescale: u32)
    returns (shift: nat)
    requires MadeOf(t, id, packets, source, timescale)
    requires AllInClock(packets, timescale) && DecodedInTurn(packets, timescale)
    ensures t.baseDecodeTime == packets[0].dts.units
    ensures forall i :: 0 <= i < |packets| ==>
              t.baseDecodeTime + Durations(t.samples[..i]) + t.samples[i].compositionOffset ==
              packets[i].pts.units + shift
  {
    hide RescaleTime, Lowest, MovedUp, Durations;
    assert InClock(packets[0], timescale);
    RescaleSame(packets[0].dts.units, timescale);
    shift := ShownAsPresented(packets, timescale, t.baseDecodeTime, t.samples);
  }

  lemma {:induction false} SizesOfMoved(samples: seq<Sample>, packets: seq<PacketRef>)
    requires |samples| == |packets| && forall i :: 0 <= i < |packets| ==> samples[i].size == packets[i].size
    ensures Sizes(samples) == PacketReads.TotalSize(packets)
    decreases |packets|
  {
    if packets != [] { SizesOfMoved(samples[1..], packets[1..]); }
  }

  lemma {:induction false} MadeMatches(t: Track, id: u32, packets: seq<PacketRef>, source: seq<byte>, timescale: u32)
    requires MadeOf(t, id, packets, source, timescale)
    ensures Sizes(t.samples) == |t.payload| == PacketReads.TotalSize(packets)
    ensures Rules(t) <==> && Playable(packets) && |packets| <= MAX_SAMPLES
                          && t.baseDecodeTime + Durations(t.samples) <= U64_MAX
  {
    hide Sizes, Durations, RescaleTime, Lowest, Rules, Playable;
    PacketReads.SelectedLength(source, packets);
    forall i | 0 <= i < |packets| ensures t.samples[i].size == packets[i].size {
      assert MovedUp(t.samples[i], packets[i], timescale, Lowest(packets, timescale));
    }
    SizesOfMoved(t.samples, packets);
    MadeSamplesKeepRules(packets, timescale, t);
  }

  method MakeTrack(source: seq<byte>, id: u32, packets: seq<PacketRef>, timescale: u32,
                   payload: seq<byte>) returns (t: Track)
    requires packets != [] && PacketReads.AllInside(source, packets) && payload == PacketReads.Selected(source, packets)
    ensures MadeOf(t, id, packets, source, timescale)
  {
    hide RescaleTime, Lowest;
    var samples := SamplesFromPackets(packets, timescale);
    t := Track(id, RescaleTime(packets[0].dts.units, packets[0].dts.scale, timescale), samples, payload);
  }

  /** Two tracks that belong to a window. */
  ghost predicate ForWindow(ts: seq<Track>, source: seq<byte>, tracks: MuxSegment.Tracks, videoScale: u32,
                            audioScale: u32, w: SegmentWindow) {
    && |ts| == 2
    && MadeOf(ts[0], 1, InsideWindow(tracks.video.packets, w), source, videoScale)
    && MadeOf(ts[1], 2, InsideWindow(tracks.audio.packets, w), source, audioScale)
  }

  /** What such a fragment takes is within what the budget check works with. */
  lemma {:induction false} FragmentWithinEstimate(ts: seq<Track>, source: seq<byte>, tracks: MuxSegment.Tracks,
                                                  videoScale: u32, audioScale: u32, w: SegmentWindow)
    requires ForWindow(ts, source, tracks, videoScale, audioScale, w)
    ensures HeaderLength(ts) + PayloadLength(ts) + 864 == MuxSegment.Estimate(tracks, w, false)
    ensures SizesMatch(ts)
  {
    hide MuxSegment.TrackCharge, PacketReads.TotalSize, PacketReads.Selected, MadeOf, InsideWindow;
    FragmentCharge(tracks.video.packets, tracks.video.payload, w);
    FragmentCharge(tracks.audio.packets, tracks.audio.payload, w);
    MadeMatches(ts[0], 1, InsideWindow(tracks.video.packets, w), source, videoScale);
    MadeMatches(ts[1], 2, InsideWindow(tracks.audio.packets, w), source, audioScale);
    MadeCounts(ts[0], 1, InsideWindow(tracks.video.packets, w), source, videoScale);
    MadeCounts(ts[1], 2, InsideWindow(tracks.audio.packets, w), source, audioScale);
    TwoTracks(ts);
  }

  lemma {:induction false} MadeCounts(t: Track, id: u32, packets: seq<PacketRef>, source: seq<byte>, timescale: u32)
    requires MadeOf(t, id, packets, source, timescale)
    ensures |t.samples| == |packets|
  {
  }

  lemma {:induction false} TwoTracks(ts: seq<Track>)
    requires |ts| == 2
    ensures HeaderLength(ts) == 160 + 16 * |ts[0].samples| + 16 * |ts[1].samples|
    ensures PayloadLength(ts) == |ts[0].payload| + |ts[1].payload|
    ensures LastOffset(ts, HeaderLength(ts)) == HeaderLength(ts) + |ts[0].payload|
    ensures AllRules(ts) <==> Rules(ts[0]) && Rules(ts[1])
  {
    hide Rules;
    assert ts[1..] == [ts[1]] && ts[1..][1..] == [];
    assert TrafsLength(ts[1..]) == TrafLength(ts[1]) + TrafsLength([]);
    assert PayloadLength(ts[1..]) == |ts[1].payload| + PayloadLength([]);
  }

  /** Both tracks of the window have packets, and both reads pass their checks. */
  predicate Readable(source: PacketReads.MediaSource, tracks: MuxSegment.Tracks, w: SegmentWindow)
    requires |source.bytes| <= U64_MAX
  {
    && InsideWindow(tracks.video.packets, w) != [] && InsideWindow(tracks.audio.packets, w) != []
    && PacketReads.Admission(|source.bytes|, source.compressedWindowBytes, InsideWindow(tracks.video.packets, w)).None?
    && PacketReads.Admission(|source.bytes|, source.compressedWindowBytes, InsideWindow(tracks.audio.packets, w)).None?
  }

  /** How many positional reads the two tracks of a window take. */
  function ReadCount(source: PacketReads.MediaSource, tracks: MuxSegment.Tracks, w: SegmentWindow): nat {
    |source.Reads(InsideWindow(tracks.video.packets, w), false)| +
        |source.Reads(InsideWindow(tracks.audio.packets, w), false)|
  }

  /** Both tracks can be read now: they pass the checks, and none of the reads that are due fails. */
  ghost predicate ReadsGoWell(source: PacketReads.MediaSource, tracks: MuxSegment.Tracks, w: SegmentWindow,
                              operation: nat)
    requires |source.bytes| <= U64_MAX
  {
    Readable(source, tracks, w) && source.Clear(operation, ReadCount(source, tracks, w))
  }

  /** The segment of a window. It is refused exactly when the budget check refuses it, it lacks video or audio exactly
      when the window has none, it fails in reading exactly when a track does not pass the checks or one of the reads
      due fails, and else it is made exactly when its tracks are acceptable. What is made is within the limit and reads
      back to both tracks, with the bytes and times of the packets of the window in their order. */
  method MuxFmp4Segment(source: PacketReads.MediaSource, limits: MuxSegment.Limits, tracks: MuxSegment.Tracks,
                        videoScale: u32, audioScale: u32, w: SegmentWindow)
    returns (r: Result<seq<byte>, Failure>, ghost ts: seq<Track>)
    requires |source.bytes| <= U64_MAX
    modifies source
    ensures var refusal := MuxSegment.Refusal(limits, tracks, w, false);
            && (refusal.Some? ==> r == Err(Budget(refusal.value)))
            && (r.Err? && r.error.Budget? ==> refusal.Some?)
            && (r == Err(NoVideo) <==> refusal.None? && InsideWindow(tracks.video.packets, w) == [])
            && (r == Err(NoAudio) <==> refusal.None? && InsideWindow(tracks.video.packets, w) != []
                                       && InsideWindow(tracks.audio.packets, w) == [])
            && (refusal.None? && ReadsGoWell(source, tracks, w, old(source.readOperations)) ==>
                  && ForWindow(ts, source.bytes, tracks, videoScale, audioScale, w)
                  && (r.Ok? <==> Acceptable(ts))
                  && source.readOperations == old(source.readOperations) + ReadCount(source, tracks, w))
            && (r.Err? && r.error.Reading? <==>
                  && refusal.None?
                  && InsideWindow(tracks.video.packets, w) != [] && InsideWindow(tracks.audio.packets, w) != []
                  && !ReadsGoWell(source, tracks, w, old(source.readOperations)))
    ensures r.Ok? ==> && ForWindow(ts, source.bytes, tracks, videoScale, audioScale, w)
                      && AllReadBack(r.value, TrafsOf(r.value), ts)
                      && SequenceOf(r.value) == Some((w.index + 1) % 0x1_0000_0000)
                      && |r.value| + 864 == MuxSegment.Estimate(tracks, w, false)
    ensures r.Ok? ==> |r.value| <= limits.output || limits.output == U64_MAX
    ensures r.Err? && r.error.Writing? ==>
              ForWindow(ts, source.bytes, tracks, videoScale, audioScale, w) && !Acceptable(ts)
  {
    hide MuxSegment.Estimate, MuxSegment.Compressed, ForWindow, MadeOf, AllReadBack, MediaFragment, FragmentHeader,
         Acceptable, PacketReads.Selected, PacketReads.TotalSize, PacketReads.BoundsCheck, PacketReads.AllInside,
         PacketReads.Admission, InsideWindow, TrafsOf, SequenceOf, Payloads, PacketReads.Plan,
         PacketReads.MediaSource.Clear;
    ts := [];
    var refusal := MuxSegment.CheckMuxBudget(limits, tracks, w, false);
    if refusal.Some? { return Err(Budget(refusal.value)), ts; }
    var video, audio := InsideWindow(tracks.video.packets, w), InsideWindow(tracks.audio.packets, w);
    if video == [] { return Err(NoVideo), ts; }
    if audio == [] { return Err(NoAudio), ts; }
    MuxSegment.ClearBoth(source, source.readOperations, |source.Reads(video, false)|, |source.Reads(audio, false)|);
    var videoBytes := ReadAll(source, video);
    if videoBytes.Err? { return Err(Reading(videoBytes.error)), ts; }
    var audioBytes := ReadAll(source, audio);
    if audioBytes.Err? { return Err(Reading(audioBytes.error)), ts; }
    var first := MakeTrack(source.bytes, 1, video, videoScale, videoBytes.value);
    var second := MakeTrack(source.bytes, 2, audio, audioScale, audioBytes.value);
    var both := [first, second];
    ts := both;
    BothForWindow(both, source.bytes, tracks, videoScale, audioScale, w);
    FragmentWithinEstimate(both, source.bytes, tracks, videoScale, audioScale, w);
    // the sequence number is the index as an unsigned 32-bit number, and one
    var sequence := (w.index + 1) % 0x1_0000_0000;
    var header := WriteFragmentHeader(sequence, both);
    WrittenIffAcceptable(sequence, both);
    HeaderDecides(sequence, both);
    if header.Err? { return Err(Writing(header.error)), ts; }
    FragmentRoundTrip(sequence, both, header.value);
    r := Ok(header.value + Payloads(both));
  }

  lemma {:induction false} HeaderDecides(sequence: u32, ts: seq<Track>)
    ensures MediaFragment(sequence, ts).Ok? <==> FragmentHeader(sequence, ts).Ok?
  {
    hide FragmentHeader, Payloads;
  }

  lemma {:induction false} BothForWindow(ts: seq<Track>, source: seq<byte>, tracks: MuxSegment.Tracks,
                                         videoScale: u32, audioScale: u32, w: SegmentWindow)
    requires |ts| == 2
    requires MadeOf(ts[0], 1, InsideWindow(tracks.video.packets, w), source, videoScale)
    requires MadeOf(ts[1], 2, InsideWindow(tracks.audio.packets, w), source, audioScale)
    ensures ForWindow(ts, source, tracks, videoScale, audioScale, w)
  {
    hide MadeOf, InsideWindow;
  }

  /** The playback read of a packet list. */
  method ReadAll(source: PacketReads.MediaSource,
                 packets: seq<PacketRef>) returns (r: Result<seq<byte>, PacketReads.ReadError>)
    requires |source.bytes| <= U64_MAX
    modifies source
    ensures r.Ok? ==> && PacketReads.AllInside(source.bytes, packets)
                      && r.value == PacketReads.Selected(source.bytes, packets)
    ensures r.Ok? <==> && PacketReads.Admission(|source.bytes|, source.compressedWindowBytes, packets).None?
                       && source.Clear(old(source.readOperations), |source.Reads(packets, false)|)
    ensures r.Ok? ==> source.readOperations == old(source.readOperations) + |source.Reads(packets, false)|
  {
    r := source.ReadPacketsMode(packets, false);
  }

  /** A segment's tracks are acceptable exactly when their packets are playable, the counts and clocks have room, and
      the fragment fits its offsets. */
  lemma {:induction false} SegmentAcceptableIff(ts: seq<Track>, source: seq<byte>, tracks: MuxSegment.Tracks,
                                                videoScale: u32, audioScale: u32, w: SegmentWindow)
    requires ForWindow(ts, source, tracks, videoScale, audioScale, w)
    ensures Acceptable(ts) <==>
            && Playable(InsideWindow(tracks.video.packets, w)) && Playable(InsideWindow(tracks.audio.packets, w))
            && |ts[0].samples| <= MAX_SAMPLES && |ts[1].samples| <= MAX_SAMPLES
            && ts[0].baseDecodeTime + Durations(ts[0].samples) <= U64_MAX
            && ts[1].baseDecodeTime + Durations(ts[1].samples) <= U64_MAX
            && 160 + 16 * (|ts[0].samples| + |ts[1].samples|) + |ts[0].payload| <= I32_MAX
            && |ts[0].payload| + |ts[1].payload| + 8 <= U32_MAX
  {
    hide MadeOf, InsideWindow, Rules, Playable, MuxSegment.Estimate, Durations, LastOffset, HeaderLength, PayloadLength;
    FragmentWithinEstimate(ts, source, tracks, videoScale, audioScale, w);
    MadeMatches(ts[0], 1, InsideWindow(tracks.video.packets, w), source, videoScale);
    MadeMatches(ts[1], 2, InsideWindow(tracks.audio.packets, w), source, audioScale);
    MadeCounts(ts[0], 1, InsideWindow(tracks.video.packets, w), source, videoScale);
    MadeCounts(ts[1], 2, InsideWindow(tracks.audio.packets, w), source, audioScale);
    TwoTracks(ts);
  }
}
