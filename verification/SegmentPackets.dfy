/** What a transport-stream segment gives back of the packets it was made of: their order, payloads and times. */
module SegmentPackets {
  import opened Machine
  import opened Media
  import opened TransportStream
  import opened Pes
  import opened MuxPayload
  import opened MuxSegment
  import PacketReads

  // ----- samples and packets -----

  /** A time in whole ticks of 90 kHz, the product cut at 64 bits; zero for a clock that stands still. */
  ghost predicate Ticks(t: MediaTime, c: nat) {
    if t.scale == 0 then c == 0
    else if t.units * 90_000 <= 0xffff_ffff_ffff_ffff then c * t.scale <= t.units * 90_000 < (c + 1) * t.scale
    else c * t.scale <= 0xffff_ffff_ffff_ffff < (c + 1) * t.scale
  }

  lemma {:induction false} WholePart(x: nat, d: nat)
    requires d >= 1
    ensures x / d * d <= x < (x / d + 1) * d
  {
    var q := x / d;
    assert x == d * q + x % d;
  }

  lemma {:induction false} TicksAreWhole(t: MediaTime)
    ensures Ticks(t, To90Khz(t))
  {
    if t.scale >= 1 { WholePart(SatMul(t.units, TS_CLOCK), t.scale); }
  }

  /** A packet's bytes, as the stream carries them. */
  ghost predicate PayloadOf(source: seq<byte>, p: PacketRef, kind: PayloadKind, payload: seq<byte>) {
    && p.sourceOffset + p.size <= |source|
    && Converted(source[p.sourceOffset..p.sourceOffset + p.size], p, kind) == Ok(payload)
  }

  ghost predicate SampleFrom(source: seq<byte>, s: Sample, p: PacketRef, kind: PayloadKind, video: bool) {
    && s.video == video && s.dtsMs == p.dts.AsMillis()
    && Ticks(p.pts, s.pts90) && Ticks(p.dts, s.dts90)
    && PayloadOf(source, p, kind, s.payload)
  }

  ghost predicate SamplesFrom(source: seq<byte>, samples: seq<Sample>, packets: seq<PacketRef>, kind: PayloadKind,
                              video: bool)
  {
    && |samples| == |packets|
    && forall i :: 0 <= i < |packets| ==> SampleFrom(source, samples[i], packets[i], kind, video)
  }

  lemma {:induction false} OneFrom(source: PacketReads.MediaSource, operation: nat, p: PacketRef, kind: PayloadKind,
                                   video: bool)
    requires PacketToPayload(source, operation, p, kind).Ok?
    ensures SampleFrom(source.bytes, SampleOf(p, video, PacketToPayload(source, operation, p, kind).value), p, kind,
                       video)
  {
    hide Converted, Ticks, To90Khz;
    TicksAreWhole(p.pts);
    TicksAreWhole(p.dts);
  }

  lemma {:induction false} FromFront(source: seq<byte>, s: Sample, samples: seq<Sample>, p: PacketRef,
                                     packets: seq<PacketRef>, kind: PayloadKind, video: bool)
    requires SampleFrom(source, s, p, kind, video) && SamplesFrom(source, samples, packets, kind, video)
    ensures SamplesFrom(source, [s] + samples, [p] + packets, kind, video)
  {
    hide SampleFrom;
  }

  /** The samples collected of a track are its packets of the window, one each. */
  lemma {:induction false} CollectedFrom(source: PacketReads.MediaSource, operation: nat, packets: seq<PacketRef>,
                                         kind: PayloadKind, video: bool, w: SegmentWindow)
    requires SamplesOf(source, operation, packets, kind, video, w).Ok?
    ensures SamplesFrom(source.bytes, SamplesOf(source, operation, packets, kind, video, w).value,
                        InsideWindow(packets, w), kind, video)
    decreases |packets|
  {
    if packets != [] {
      hide PacketToPayload, SampleFrom, InWindow, SampleOf, SamplesFrom;
      var inside := InsideWindow(packets[1..], w);
      if InWindow(packets[0], w) {
        OneFrom(source, operation, packets[0], kind, video);
        CollectedFrom(source, operation + 1, packets[1..], kind, video, w);
        FromFront(source.bytes, SampleOf(packets[0], video, PacketToPayload(source, operation, packets[0], kind).value),
                  SamplesOf(source, operation + 1, packets[1..], kind, video, w).value, packets[0], inside, kind,
                  video);
      } else {
        CollectedFrom(source, operation, packets[1..], kind, video, w);
        assert [] + inside == inside;
      }
    }
  }

  // ----- one stream of the sorted samples -----

  function StreamOf(samples: seq<Sample>, video: bool): seq<Sample> {
    if samples == [] then [] else
      (if samples[0].video == video then [samples[0]] else []) + StreamOf(samples[1..], video)
  }

  lemma {:induction false} StreamAppend(a: seq<Sample>, b: seq<Sample>, video: bool)
    ensures StreamOf(a + b, video) == StreamOf(a, video) + StreamOf(b, video)
  {
    if a == [] {
      assert a + b == b;
    } else {
      assert (a + b)[1..] == a[1..] + b;
      StreamAppend(a[1..], b, video);
    }
  }

  lemma {:induction false} StreamOfOneKind(samples: seq<Sample>, kind: bool, video: bool)
    requires forall s <- samples :: s.video == kind
    ensures StreamOf(samples, video) == if kind == video then samples else []
  {
    if samples != [] {
      StreamOfOneKind(samples[1..], kind, video);
      assert samples[0] in samples && samples == [samples[0]] + samples[1..];
    }
  }

  lemma {:induction false} StreamMembers(samples: seq<Sample>, video: bool)
    ensures forall s <- StreamOf(samples, video) :: s in samples && s.video == video
  {
    if samples != [] { StreamMembers(samples[1..], video); }
  }

  lemma {:induction false} StreamOfInserted(s: Sample, sorted: seq<Sample>, video: bool)
    requires Ordered(sorted)
    ensures StreamOf(Inserted(s, sorted), video) ==
            if s.video == video then Inserted(s, StreamOf(sorted, video)) else StreamOf(sorted, video)
  {
    var stream := StreamOf(sorted, video);
    if sorted == [] {
      assert Inserted(s, sorted) == [s] && [s][1..] == [];
    } else if Before(s, sorted[0]) {
      assert Inserted(s, sorted) == [s] + sorted && ([s] + sorted)[1..] == sorted;
      if s.video == video && stream != [] {
        StreamMembers(sorted, video);
        assert stream[0] in sorted;
        assert !Before(stream[0], sorted[0]);
      }
    } else {
      StreamOfInserted(s, sorted[1..], video);
      var tail, all := StreamOf(sorted[1..], video), Inserted(s, sorted);
      assert all[0] == sorted[0] && all[1..] == Inserted(s, sorted[1..]);
      assert [] + tail == tail && [] + Inserted(s, tail) == Inserted(s, tail);
      assert ([sorted[0]] + tail)[1..] == tail;
    }
  }

  /** The sort leaves each stream sorted for itself. */
  lemma {:induction false} SortedStream(samples: seq<Sample>, video: bool)
    ensures StreamOf(Sorted(samples), video) == Sorted(StreamOf(samples, video))
  {
    if samples != [] {
      hide Inserted, Ordered;
      var front, s := samples[..|samples| - 1], samples[|samples| - 1];
      SortedStream(front, video);
      SortIsStable(front, s);
      StreamOfInserted(s, Sorted(front), video);
      assert samples == front + [s];
      StreamAppend(front, [s], video);
      var stream := StreamOf(front, video);
      assert [s][1..] == [] && stream + [] == stream && (stream + [s])[..|stream|] == stream;
    }
  }

  // ----- the order of decoding -----

  /** An order of all packets: by decode time in milliseconds, equal ones as they come. */
  ghost predicate DecodeOrder(packets: seq<PacketRef>, order: seq<nat>) {
    && |order| == |packets|
    && (forall k :: 0 <= k < |order| ==> order[k] < |packets|)
    && forall j, k :: 0 <= j < k < |order| ==>
                        var a, b := packets[order[j]].dts.AsMillis(), packets[order[k]].dts.AsMillis();
                        a < b || (a == b && order[j] < order[k])
  }

  /** The same of samples of one stream, and what they come to. */
  ghost predicate SampleOrder(samples: seq<Sample>, order: seq<nat>, sorted: seq<Sample>) {
    && |order| == |samples| == |sorted|
    && (forall k :: 0 <= k < |order| ==> order[k] < |samples| && sorted[k] == samples[order[k]])
    && forall j, k :: 0 <= j < k < |order| ==>
                        sorted[j].dtsMs < sorted[k].dtsMs || (sorted[j].dtsMs == sorted[k].dtsMs && order[j] < order[k])
  }

  lemma {:induction false} InsertedPlace(s: Sample, sorted: seq<Sample>) returns (at: nat)
    ensures at <= |sorted| && Inserted(s, sorted) == sorted[..at] + [s] + sorted[at..]
    ensures (forall k :: 0 <= k < at ==> !Before(s, sorted[k])) && (at < |sorted| ==> Before(s, sorted[at]))
  {
    hide Before;
    if sorted == [] || Before(s, sorted[0]) {
      at := 0;
    } else {
      var next := InsertedPlace(s, sorted[1..]);
      at := next + 1;
      assert sorted[1..][..next] == sorted[1..at] && sorted[1..][next..] == sorted[at..];
      assert [sorted[0]] + (sorted[1..at] + [s] + sorted[at..]) == sorted[..at] + [s] + sorted[at..];
      forall k | 0 <= k < at ensures !Before(s, sorted[k]) { if k > 0 { assert sorted[k] == sorted[1..][k - 1]; } }
      if at < |sorted| { assert sorted[at] == sorted[1..][next]; }
    }
  }

  lemma {:induction false} OrderGrows(front: seq<Sample>, order: seq<nat>, sorted: seq<Sample>, s: Sample, at: nat)
    requires SampleOrder(front, order, sorted) && (forall x <- front + [s] :: x.video == s.video)
    requires at <= |sorted|
    requires (forall k :: 0 <= k < at ==> !Before(s, sorted[k])) && (at < |sorted| ==> Before(s, sorted[at]))
    ensures SampleOrder(front + [s], order[..at] + [|front|] + order[at..], sorted[..at] + [s] + sorted[at..])
  {
    var samples, order', sorted' := front + [s], order[..at] + [|front|] + order[at..],
                                    sorted[..at] + [s] + sorted[at..];
    forall k | 0 <= k < |order'| ensures order'[k] < |samples| && sorted'[k] == samples[order'[k]] {
      if k < at { assert sorted[k] == front[order[k]]; }
      if k > at { assert sorted[k - 1] == front[order[k - 1]]; }
    }
    forall k | 0 <= k < |sorted| ensures sorted[k] in samples { assert sorted[k] == samples[order[k]]; }
    forall j, k | 0 <= j < k < |order'|
      ensures sorted'[j].dtsMs < sorted'[k].dtsMs || (sorted'[j].dtsMs == sorted'[k].dtsMs && order'[j] < order'[k])
    {
      if j == at && k - 1 > at { assert sorted[at].dtsMs <= sorted[k - 1].dtsMs; }
    }
  }

  /** Samples of one stream are sorted by decode time, equal ones as they come. */
  lemma {:induction false} SortedInOrder(samples: seq<Sample>, video: bool) returns (order: seq<nat>)
    requires forall s <- samples :: s.video == video
    ensures SampleOrder(samples, order, Sorted(samples))
  {
    if samples == [] {
      order := [];
    } else {
      hide SampleOrder, Inserted;
      var front, s := samples[..|samples| - 1], samples[|samples| - 1];
      var before := SortedInOrder(front, video);
      var at := InsertedPlace(s, Sorted(front));
      assert samples == front + [s];
      Lengths(front, before, Sorted(front));
      OrderGrows(front, before, Sorted(front), s, at);
      order := before[..at] + [|front|] + before[at..];
    }
  }

  lemma {:induction false} Lengths(samples: seq<Sample>, order: seq<nat>, sorted: seq<Sample>)
    requires SampleOrder(samples, order, sorted)
    ensures |order| == |samples| == |sorted|
  {
  }

  // ----- what is sent of one stream -----

  function OneStream(last: Option<u64>, samples: seq<Sample>): seq<Delivery>
    decreases |samples|
  {
    if samples == [] then [] else
      var stamp := Sanitized(last, Stamp(samples[0].video, samples[0].pts90, samples[0].dts90));
      [Delivery(stamp, samples[0].payload)] + OneStream(Some(stamp.dts90), samples[1..])
  }

  /** What is sent of a stream depends on that stream alone. */
  lemma {:induction false} StreamIsSent(slots: Slots, samples: seq<Sample>, video: bool)
    ensures Deliveries(slots, samples, video) == OneStream(slots.Of(video), StreamOf(samples, video))
    decreases |samples|
  {
    if samples != [] {
      hide Sanitized;
      var stamp := StampOf(slots, samples[0]);
      assert stamp.video == samples[0].video by { StampKeepsStream(slots, samples[0]); }
      StreamIsSent(slots.Given(stamp), samples[1..], video);
      var rest := StreamOf(samples[1..], video);
      assert ([samples[0]] + rest)[1..] == rest && [] + rest == rest;
      assert [] + OneStream(slots.Of(video), rest) == OneStream(slots.Of(video), rest);
    }
  }

  lemma {:induction false} StampKeepsStream(slots: Slots, s: Sample)
    ensures StampOf(slots, s).video == s.video
  {
  }

  /** Both times of a unit, in ticks. */
  datatype Times = Times(pts: nat, dts: nat)

  /** Sent decode times are the own ones, but at least one tick behind the last while 64 bits last; nothing is
      presented before it is decoded. */
  ghost predicate SentAs(own: seq<Times>, sent: seq<Times>) {
    |sent| == |own| && forall k :: 0 <= k < |sent| ==> SentAt(own, sent, k)
  }

  ghost predicate SentAt(own: seq<Times>, sent: seq<Times>, k: nat)
    requires k < |sent| == |own|
  {
    && sent[k].pts == Max(own[k].pts, sent[k].dts)
    && sent[k].dts == (if k == 0 || sent[k - 1].dts < own[k].dts then own[k].dts
                       else Min(sent[k - 1].dts + 1, 0xffff_ffff_ffff_ffff))
  }

  ghost predicate TimesRise(own: seq<Times>) {
    && (forall k :: 0 <= k < |own| ==> own[k].dts <= own[k].pts)
    && forall k :: 0 < k < |own| ==> own[k - 1].dts < own[k].dts
  }

  lemma {:induction false} RisingIsSent(own: seq<Times>, sent: seq<Times>, k: nat)
    requires SentAs(own, sent) && TimesRise(own) && k < |own| && (k > 0 ==> sent[k - 1] == own[k - 1])
    ensures sent[k] == own[k]
  {
    assert SentAt(own, sent, k);
    assert own[k].dts <= own[k].pts;
    if k > 0 { assert own[k - 1].dts < own[k].dts; }
    assert sent[k] == Times(own[k].pts, own[k].dts) == own[k];
  }

  lemma {:induction false} RisingTimesAreSent(own: seq<Times>, sent: seq<Times>, k: nat)
    requires SentAs(own, sent) && TimesRise(own) && k < |own|
    ensures sent[k] == own[k]
    decreases k
  {
    hide TimesRise;
    if k > 0 { RisingTimesAreSent(own, sent, k - 1); }
    RisingIsSent(own, sent, k);
  }

  function OwnTimes(samples: seq<Sample>): (own: seq<Times>)
    ensures |own| == |samples|
    ensures forall k :: 0 <= k < |own| ==> own[k] == Times(samples[k].pts90, samples[k].dts90)
  {
    seq(|samples|, k requires 0 <= k < |samples| => Times(samples[k].pts90, samples[k].dts90))
  }

  function SentTimes(sent: seq<Delivery>): (times: seq<Times>)
    ensures |times| == |sent|
    ensures forall k :: 0 <= k < |sent| ==> times[k] == Times(sent[k].stamp.pts90, sent[k].stamp.dts90)
  {
    seq(|sent|, k requires 0 <= k < |sent| => Times(sent[k].stamp.pts90, sent[k].stamp.dts90))
  }

  lemma {:induction false} OneStreamAt(last: Option<u64>, samples: seq<Sample>, k: nat)
    requires k < |samples|
    ensures var sent := OneStream(last, samples);
            && |sent| == |samples| && sent[k].payload == samples[k].payload
            && var before := if k == 0 then last else Some(sent[k - 1].stamp.dts90);
               sent[k].stamp == Sanitized(before, Stamp(samples[k].video, samples[k].pts90, samples[k].dts90))
    decreases |samples|
  {
    hide Sanitized;
    var stamp := Sanitized(last, Stamp(samples[0].video, samples[0].pts90, samples[0].dts90));
    var rest := OneStream(Some(stamp.dts90), samples[1..]);
    assert OneStream(last, samples)[1..] == rest;
    if |samples| > 1 { OneStreamAt(Some(stamp.dts90), samples[1..], if k == 0 then 0 else k - 1); }
  }

  lemma {:induction false} OneStreamSends(samples: seq<Sample>)
    ensures var sent := OneStream(None, samples);
            && |sent| == |samples|
            && (forall k :: 0 <= k < |sent| ==> sent[k].payload == samples[k].payload)
            && SentAs(OwnTimes(samples), SentTimes(sent))
  {
    hide OneStream;
    var sent := OneStream(None, samples);
    if samples == [] { NothingSent(); } else { OneStreamAt(None, samples, 0); }
    forall k | 0 <= k < |sent| ensures sent[k].payload == samples[k].payload { OneStreamAt(None, samples, k); }
    var own, times := OwnTimes(samples), SentTimes(sent);
    forall k | 0 <= k < |times| ensures SentAt(own, times, k) { OneStreamAt(None, samples, k); }
  }

  lemma {:induction false} NothingSent()
    ensures OneStream(None, []) == []
  {
  }

  // ----- program clocks -----

  lemma {:induction false} PesClocks(slots: Slots, samples: seq<Sample>, audioStreamId: byte, video: bool)
    ensures var clocks, sent := ClocksOf(PesWrites(slots, samples, audioStreamId), MediaPid(video)),
                                Deliveries(slots, samples, video);
            && |clocks| == |sent|
            && forall k :: 0 <= k < |clocks| ==>
                 clocks[k] == if video then Some(sent[k].stamp.dts90 % 0x2000_0000) else None
    decreases |samples|
  {
    if samples != [] {
      hide ClocksOf, StampOf;
      var s, stamp := samples[0], StampOf(slots, samples[0]);
      var first, rest := PesWrite(s, stamp, audioStreamId), PesWrites(slots.Given(stamp), samples[1..], audioStreamId);
      PesClocks(slots.Given(stamp), samples[1..], audioStreamId, video);
      ClocksOfAppend([first], rest, MediaPid(video));
      ClocksOfOne(first, MediaPid(video));
    } else {
      NoneWritten(MediaPid(video));
    }
  }

  lemma {:induction false} NoneWritten(pid: Pid)
    ensures ClocksOf([], pid) == []
  {
  }

  lemma {:induction false} PsiClocks(tracks: Tracks, video: bool)
    ensures ClocksOf(PsiWrites(tracks), MediaPid(video)) == []
  {
    hide PatSection, PmtSection, StreamType, ClocksOf;
    var writes := PsiWrites(tracks);
    assert writes == [writes[0]] + [writes[1]];
    ClocksOfAppend([writes[0]], [writes[1]], MediaPid(video));
    ClocksOfOne(writes[0], MediaPid(video));
    ClocksOfOne(writes[1], MediaPid(video));
  }

  lemma {:induction false} SegmentClocks(tracks: Tracks, samples: seq<Sample>, video: bool)
    ensures var clocks, sent := UnitClocks(AllCells(SegmentWrites(tracks, samples)), MediaPid(video)),
                                SegmentDeliveries(samples, video);
            && |clocks| == |sent|
            && forall k :: 0 <= k < |clocks| ==>
                 clocks[k] == if video then Some(sent[k].stamp.dts90 % 0x2000_0000) else None
  {
    hide PsiWrites, PesWrites, Sorted, AudioStreamId, Deliveries, AllCells, UnitClocks, ClocksOf;
    var id := AudioStreamId(tracks.audio.payload);
    var media := PesWrites(Slots(None, None), Sorted(samples), id);
    AllStart(Slots(None, None), Sorted(samples), id);
    PsiOnOtherPids(tracks, MediaPid(video));
    UnitClocksAreWritten(SegmentWrites(tracks, samples), MediaPid(video));
    ClocksOfAppend(PsiWrites(tracks), media, MediaPid(video));
    PsiClocks(tracks, video);
    PesClocks(Slots(None, None), Sorted(samples), id, video);
    assert [] + ClocksOf(media, MediaPid(video)) == ClocksOf(media, MediaPid(video));
  }

  // ----- the segment -----

  function TrackOf(tracks: Tracks, video: bool): Track { if video then tracks.video else tracks.audio }

  /** Each stream's packets of the window become its sorted samples. */
  lemma {:induction false} StreamFrom(source: PacketReads.MediaSource, operation: nat, tracks: Tracks,
                                      w: SegmentWindow, video: bool)
    requires Collected(source, operation, tracks, w).Ok?
    ensures SamplesFrom(source.bytes, StreamOf(Collected(source, operation, tracks, w).value, video),
                        InsideWindow(TrackOf(tracks, video).packets, w), TrackOf(tracks, video).payload, video)
  {
    hide SamplesOf, InsideWindow, SampleFrom, StreamOf;
    var first := SamplesOf(source, operation, tracks.video.packets, tracks.video.payload, true, w).value;
    var second := SamplesOf(source, operation + |first|, tracks.audio.packets, tracks.audio.payload, false, w).value;
    CollectedFrom(source, operation, tracks.video.packets, tracks.video.payload, true, w);
    CollectedFrom(source, operation + |first|, tracks.audio.packets, tracks.audio.payload, false, w);
    OneKind(source.bytes, first, InsideWindow(tracks.video.packets, w), tracks.video.payload, true);
    OneKind(source.bytes, second, InsideWindow(tracks.audio.packets, w), tracks.audio.payload, false);
    StreamAppend(first, second, video);
    StreamOfOneKind(first, true, video);
    StreamOfOneKind(second, false, video);
    assert [] + second == second && first + [] == first;
  }

  lemma {:induction false} OneKind(source: seq<byte>, samples: seq<Sample>, packets: seq<PacketRef>, kind: PayloadKind,
                                   video: bool)
    requires SamplesFrom(source, samples, packets, kind, video)
    ensures forall s <- samples :: s.video == video
  {
    forall s | s in samples ensures s.video == video {
      var i :| 0 <= i < |samples| && samples[i] == s;
      assert SampleFrom(source, samples[i], packets[i], kind, video);
    }
  }

  /** A received unit: a PES packet of that stream, with a packet's payload and these times modulo the clock. */
  ghost predicate UnitFrom(unit: seq<byte>, streamId: byte, source: seq<byte>, p: PacketRef, kind: PayloadKind,
                           at: Times)
  {
    && DecodePes(unit).Some?
    && var pes := DecodePes(unit).value;
       && pes.streamId == streamId && PayloadOf(source, p, kind, pes.payload)
       && pes.pts == at.pts % 0x2000_0000 && pes.dts == at.dts % 0x2000_0000
  }

  ghost predicate OwnTicks(p: PacketRef, own: Times) { Ticks(p.pts, own.pts) && Ticks(p.dts, own.dts) }

  /** What a receiver of one stream gets: its packets in the order of decoding. */
  ghost predicate Received(units: seq<seq<byte>>, clocks: seq<Option<nat>>, source: seq<byte>, track: Track,
                           w: SegmentWindow, video: bool, order: seq<nat>, own: seq<Times>, sent: seq<Times>)
  {
    var packets := InsideWindow(track.packets, w);
    var streamId := if video then 0xe0
                    else match track.payload case Ac3 | Eac3 | RawAudio => 0xbd case _ => 0xc0;
    && |units| == |clocks| == |packets| && DecodeOrder(packets, order)
    && |own| == |packets| && SentAs(own, sent)
    && forall k :: 0 <= k < |units| ==>
         && OwnTicks(packets[order[k]], own[k])
         && UnitFrom(units[k], streamId, source, packets[order[k]], track.payload, sent[k])
         && clocks[k] == if video then Some(sent[k].dts % 0x2000_0000) else None
  }

  /** Demultiplexing a segment gives back the packets of its window, on each stream in the order of decoding: every unit
      carries a packet's converted bytes and its times in ticks, which the sanitising changes only where they do not
      rise, and the video's first packets the program clock. */
  lemma {:induction false} SegmentGivesPackets(source: PacketReads.MediaSource, operation: nat, tracks: Tracks,
                                               w: SegmentWindow, video: bool)
    returns (order: seq<nat>, own: seq<Times>, sent: seq<Times>)
    requires Collected(source, operation, tracks, w).Ok?
    ensures var cells := AllCells(SegmentWrites(tracks, Collected(source, operation, tracks, w).value));
            var pid := if video then 0x100 else 0x101;
            Received(Units(cells, pid), UnitClocks(cells, pid), source.bytes, TrackOf(tracks, video), w, video,
                     order, own, sent)
    ensures TimesRise(own) ==> sent == own
  {
    hide Received, Collected, SamplesFrom, SampleOrder, SegmentWrites, AllCells, Units, UnitClocks, Sorted, StreamOf,
         OneStream, SegmentDeliveries, Deliveries, SentAs, Carries, InsideWindow, DecodeAll, EncodeAll, Fits;
    var samples := Collected(source, operation, tracks, w).value;
    var stream, packets := StreamOf(samples, video), InsideWindow(TrackOf(tracks, video).packets, w);
    StreamFrom(source, operation, tracks, w, video);
    OneKind(source.bytes, stream, packets, TrackOf(tracks, video).payload, video);
    order := SortedInOrder(stream, video);
    own := OwnTimes(Sorted(stream));
    var deliveries := OneStream(None, Sorted(stream));
    sent := SentTimes(deliveries);
    OneStreamSends(Sorted(stream));
    assert deliveries == SegmentDeliveries(samples, video) by {
      SentIsStream(samples, video);
      SortedStream(samples, video);
    }
    SegmentDemuxes(tracks, samples, video);
    SegmentClocks(tracks, samples, video);
    var cells := AllCells(SegmentWrites(tracks, samples));
    Lengths(stream, order, Sorted(stream));
    Receives(Units(cells, MediaPid(video)), UnitClocks(cells, MediaPid(video)), source.bytes, tracks, w, video,
             stream, order, deliveries);
    if TimesRise(own) {
      SentLength(own, sent);
      forall k | 0 <= k < |own| ensures sent[k] == own[k] { RisingTimesAreSent(own, sent, k); }
    }
  }

  lemma {:induction false} SentLength(own: seq<Times>, sent: seq<Times>)
    requires SentAs(own, sent)
    ensures |sent| == |own|
  {
  }

  lemma {:induction false} SentIsStream(samples: seq<Sample>, video: bool)
    ensures SegmentDeliveries(samples, video) == OneStream(None, StreamOf(Sorted(samples), video))
  {
    hide Deliveries, OneStream, StreamOf, Sorted;
    StreamIsSent(Slots(None, None), Sorted(samples), video);
  }

  lemma {:induction false} Receives(units: seq<seq<byte>>, clocks: seq<Option<nat>>, source: seq<byte>, tracks: Tracks,
                                    w: SegmentWindow, video: bool, stream: seq<Sample>, order: seq<nat>,
                                    deliveries: seq<Delivery>)
    requires var track := TrackOf(tracks, video);
             SamplesFrom(source, stream, InsideWindow(track.packets, w), track.payload, video)
    requires SampleOrder(stream, order, Sorted(stream))
    requires |deliveries| == |stream| && SentAs(OwnTimes(Sorted(stream)), SentTimes(deliveries))
    requires forall k :: 0 <= k < |deliveries| ==> deliveries[k].payload == Sorted(stream)[k].payload
    requires Carries(units, MediaStreamId(video, AudioStreamId(tracks.audio.payload)), deliveries)
    requires |clocks| == |deliveries|
    requires forall k :: 0 <= k < |clocks| ==>
                           clocks[k] == if video then Some(deliveries[k].stamp.dts90 % 0x2000_0000) else None
    ensures Received(units, clocks, source, TrackOf(tracks, video), w, video, order, OwnTimes(Sorted(stream)),
                     SentTimes(deliveries))
  {
    hide InsideWindow, Sorted, DecodePes, PayloadOf, Ticks, SentAs;
    var track := TrackOf(tracks, video);
    var packets := InsideWindow(track.packets, w);
    forall k | 0 <= k < |packets| ensures SampleFrom(source, Sorted(stream)[k], packets[order[k]], track.payload, video)
    {
      assert SampleFrom(source, stream[order[k]], packets[order[k]], track.payload, video);
    }
    forall k | 0 <= k < |units|
      ensures UnitFrom(units[k], MediaStreamId(video, AudioStreamId(tracks.audio.payload)), source, packets[order[k]],
                       track.payload, SentTimes(deliveries)[k])
    {
      assert Arrives(units[k], MediaStreamId(video, AudioStreamId(tracks.audio.payload)), deliveries[k]);
    }
    assert DecodeOrder(packets, order);
  }
}
