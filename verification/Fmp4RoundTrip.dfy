/** What the fragment writer accepts, and that everything it writes reads back. */
module Fmp4RoundTrip {
  import opened Machine
  import opened Fmp4Boxes
  import opened Fmp4Parse
  import opened Fmp4Writer

  // ----- the moof of a written header is found, with and without the payload behind it -----

  function MoofBody(sequence: u32, tracks: seq<Track>, offsets: seq<i32>): seq<byte>
    requires |tracks| == |offsets|
  {
    MfhdBox(sequence) + Trafs(tracks, offsets)
  }

  lemma {:induction false} BoxInFront(name: seq<byte>, body: seq<byte>, rest: seq<byte>)
    requires |name| == 4 && 8 + |body| <= U32_MAX
    ensures TopLevel(Box(name, body) + rest, name) == Some(body)
  {
    var b := Box(name, body) + rest;
    FindFirst(name, body, rest);
    BoxParses(name, body, rest);
    assert b[0..] == b;
  }

  lemma {:induction false} BoxBehind(name: seq<byte>, body: seq<byte>, other: seq<byte>, payload: seq<byte>)
    requires |name| == |other| == 4 && name != other && 8 + |body| <= U32_MAX && 8 + |payload| <= U32_MAX
    ensures var b := Box(name, body) + Box(other, payload);
            Find(b, other) == Some(8 + |body|) && PayloadAt(b, 8 + |body|) == Some(payload)
  {
    var b := Box(name, body) + Box(other, payload);
    FindLater(name, body, Box(other, payload), other);
    assert Box(other, payload) + [] == Box(other, payload);
    FindFirst(other, payload, []);
    BoxParses(other, payload, []);
    assert b[8 + |body|..] == Box(other, payload);
  }

  lemma {:induction false} HeaderTail(moof: seq<byte>, n: nat)
    requires n + 8 <= U32_MAX
    ensures var h := moof + MdatHeader(n); h[|h| - 4..] == MDAT && BeUint(h[|h| - 8..|h| - 4]) == n + 8
  {
    var h := moof + MdatHeader(n);
    assert h[|h| - 8..|h| - 4] == BeBytes(n + 8, 4);
    Pow256Is();
    BeRoundTrip(n + 8, 4);
  }

  lemma {:induction false} HeaderHasMoof(body: seq<byte>, n: nat)
    requires 8 + |body| <= U32_MAX && n + 8 <= U32_MAX
    ensures var header := Box(MOOF, body) + MdatHeader(n);
            ValidateHeader(header, n) == ValidateTrafs(body, |header|, |header| + n)
  {
    hide TopLevel, ValidateTrafs;
    BoxInFront(MOOF, body, MdatHeader(n));
    HeaderTail(Box(MOOF, body), n);
  }

  lemma {:induction false} MdatIsBox(moof: seq<byte>, payload: seq<byte>)
    requires |payload| + 8 <= U32_MAX
    ensures moof + MdatHeader(|payload|) + payload == moof + Box(MDAT, payload)
  {
    hide BeBytes;
    Regroup(moof, MdatHeader(|payload|), payload);
  }

  lemma {:induction false} AssembledHasMoof(body: seq<byte>, payload: seq<byte>)
    requires 8 + |body| <= U32_MAX && |payload| + 8 <= U32_MAX
    ensures var bytes := Box(MOOF, body) + MdatHeader(|payload|) + payload;
            && ValidateMedia(bytes) == ValidateTrafs(body, 16 + |body|, 16 + |body| + |payload|)
            && TopLevel(bytes, MOOF) == Some(body)
  {
    hide TopLevel, ValidateTrafs, Find, PayloadAt, Box, MdatHeader;
    NamesDiffer();
    MdatIsBox(Box(MOOF, body), payload);
    BoxInFront(MOOF, body, Box(MDAT, payload));
    BoxBehind(MOOF, body, MDAT, payload);
  }

  // ----- what is accepted -----

  /** The rules for one track, whatever its place. */
  ghost predicate Rules(t: Track) {
    && t.samples != [] && |t.samples| <= MAX_SAMPLES && !NonSync(t.samples[0].flags)
    && (forall i :: 0 <= i < |t.samples| ==> Usable(t.samples[i]))
    && t.baseDecodeTime + Durations(t.samples) <= U64_MAX
  }

  /** What the checks make of one track: its extent, or some error. */
  ghost predicate Judged(r: Result<Extent, Error>, t: Track, off: int) {
    if Rules(t)
    then off >= 0 && |t.payload| <= U64_MAX && r == Ok(Extent(off + |t.payload|, |t.samples|, |t.payload|))
    else r.Err?
  }

  lemma {:induction false} TrackValidates(t: Track, off: i32, start: nat, end: nat)
    requires TrafLength(t) <= U32_MAX && Sizes(t.samples) == |t.payload|
    requires 0 <= start <= off && off + |t.payload| <= end <= U64_MAX
    ensures Judged(ValidateTraf(TrafPayload(t, off), start, end, off), t, off)
  {
    hide Child, TrafPayload, TfdtPayload, TrunPayload, BaseDecodeTime, InspectTrun, ValidateRun, Usable, Durations,
         Sizes;
    TrafHolds(t, off);
    TfdtRoundTrip(t);
    TrunRoundTrip(t.samples, off);
    if |t.samples| <= MAX_SAMPLES { RunValidates(t, off, start, end); }
  }

  lemma {:induction false} RunValidates(t: Track, off: i32, start: nat, end: nat)
    requires Sizes(t.samples) == |t.payload| && |t.samples| <= MAX_SAMPLES
    requires 0 <= start <= off && off + |t.payload| <= end <= U64_MAX
    ensures Judged(ValidateRun(Inspected(off, t.samples), t.baseDecodeTime, start, end, off), t, off)
  {
    RunPassesIff(t.samples, 0, t.baseDecodeTime);
  }

  function SampleCount(tracks: seq<Track>): nat {
    if tracks == [] then 0 else |tracks[0].samples| + SampleCount(tracks[1..])
  }

  ghost predicate AllRules(tracks: seq<Track>) {
    forall i :: 0 <= i < |tracks| ==> Rules(tracks[i])
  }

  lemma {:induction false} AllRulesStep(tracks: seq<Track>)
    requires tracks != []
    ensures AllRules(tracks) <==> Rules(tracks[0]) && AllRules(tracks[1..])
  {
    var rest := tracks[1..];
    assert forall i :: 0 <= i < |rest| ==> rest[i] == tracks[i + 1];
    if Rules(tracks[0]) && AllRules(rest) {
      forall i | 0 <= i < |tracks| ensures Rules(tracks[i]) { if i > 0 { assert Rules(rest[i - 1]); } }
    }
  }

  lemma {:induction false} OffsetsStep(tracks: seq<Track>, cursor: nat)
    requires tracks != [] && Offsets(tracks, cursor).Some?
    ensures cursor <= I32_MAX && Offsets(tracks[1..], cursor + |tracks[0].payload|).Some?
    ensures var offsets := Offsets(tracks, cursor).value;
            offsets[0] == cursor && offsets[1..] == Offsets(tracks[1..], cursor + |tracks[0].payload|).value
  {
  }

  lemma {:induction false} SizesMatchStep(tracks: seq<Track>)
    requires tracks != [] && SizesMatch(tracks)
    ensures Sizes(tracks[0].samples) == |tracks[0].payload| && SizesMatch(tracks[1..])
  {
    assert forall i :: 0 <= i < |tracks[1..]| ==> tracks[1..][i] == tracks[i + 1];
  }

  ghost predicate AllJudged(r: Result<Validation, Error>, tracks: seq<Track>, so: Validation) {
    if AllRules(tracks)
    then r == Ok(Validation(so.trackCount + |tracks|, SatAdd(so.sampleCount, Min(SampleCount(tracks), U64_MAX)),
                            SatAdd(so.payloadBytes, Min(PayloadLength(tracks), U64_MAX))))
    else r.Err?
  }

  lemma {:induction false} FoldStep(trafs: seq<seq<byte>>, start: nat, end: nat, previous: nat, so: Validation)
    requires trafs != []
    ensures var x := ValidateTraf(trafs[0], start, end, previous);
            FoldTrafs(trafs, start, end, previous, so) ==
            if x.Err? then Err(x.error)
            else FoldTrafs(trafs[1..], start, end, x.value.dataEnd,
                           Validation(so.trackCount + 1, SatAdd(so.sampleCount, x.value.samples),
                                      SatAdd(so.payloadBytes, x.value.bytes)))
  {
    hide ValidateTraf;
  }

  lemma {:induction false} JudgedStep(r: Result<Validation, Error>, tracks: seq<Track>, so: Validation)
    requires tracks != [] && Rules(tracks[0])
    requires AllJudged(r, tracks[1..],
                       Validation(so.trackCount + 1, SatAdd(so.sampleCount, Min(|tracks[0].samples|, U64_MAX)),
                                  SatAdd(so.payloadBytes, Min(|tracks[0].payload|, U64_MAX))))
    ensures AllJudged(r, tracks, so)
  {
    hide Rules, AllRules;
    AllRulesStep(tracks);
  }

  /** The fold over written tracks passes exactly when every track keeps the rules, and counts them all. */
  lemma {:induction false} FoldWritten(tracks: seq<Track>, start: nat, end: nat, cursor: nat, so: Validation)
    requires Offsets(tracks, cursor).Some? && SizesMatch(tracks) && TrafsLength(tracks) <= U32_MAX
    requires start <= cursor && cursor + PayloadLength(tracks) <= end <= U64_MAX
    ensures AllJudged(FoldTrafs(TrafPayloads(tracks, Offsets(tracks, cursor).value), start, end, cursor, so), tracks,
                      so)
    decreases |tracks|
  {
    hide ValidateTraf, TrafPayload, Rules, AllRules, Sizes, SizesMatch;
    var offsets := Offsets(tracks, cursor).value;
    if tracks == [] {
      EmptyJudged(so);
    } else {
      var t, trafs := tracks[0], TrafPayloads(tracks, offsets);
      OffsetsStep(tracks, cursor);
      SizesMatchStep(tracks);
      AllRulesStep(tracks);
      TrackValidates(t, cursor, start, end);
      FoldStep(trafs, start, end, cursor, so);
      assert trafs[1..] == TrafPayloads(tracks[1..], offsets[1..]);
      if Rules(t) {
        var next := Validation(so.trackCount + 1, SatAdd(so.sampleCount, Min(|t.samples|, U64_MAX)),
                               SatAdd(so.payloadBytes, Min(|t.payload|, U64_MAX)));
        FoldWritten(tracks[1..], start, end, cursor + |t.payload|, next);
        JudgedStep(FoldTrafs(trafs[1..], start, end, cursor + |t.payload|, next), tracks, so);
      }
    }
  }

  lemma {:induction false} EmptyJudged(so: Validation)
    ensures AllJudged(Ok(so), [], so)
  {
  }

  lemma {:induction false} CountsAreSmall(tracks: seq<Track>)
    ensures SampleCount(tracks) <= TrafsLength(tracks)
    decreases |tracks|
  {
    if tracks != [] { CountsAreSmall(tracks[1..]); }
  }

  /** Where the last track's data starts. */
  function LastOffset(tracks: seq<Track>, cursor: nat): nat
    requires tracks != []
    decreases |tracks|
  {
    if |tracks| == 1 then cursor else LastOffset(tracks[1..], cursor + |tracks[0].payload|)
  }

  lemma {:induction false} OffsetsFit(tracks: seq<Track>, cursor: nat)
    requires tracks != []
    ensures Offsets(tracks, cursor).Some? <==> LastOffset(tracks, cursor) <= I32_MAX
    ensures cursor <= LastOffset(tracks, cursor)
    decreases |tracks|
  {
    if |tracks| > 1 { OffsetsFit(tracks[1..], cursor + |tracks[0].payload|); }
  }

  /** What a caller can check before: something to write, sizes that match, the sample rules, a last data offset that
      fits 31 bits, an `mdat` size that fits 32. */
  ghost predicate Acceptable(tracks: seq<Track>) {
    && tracks != [] && SizesMatch(tracks) && AllRules(tracks)
    && LastOffset(tracks, HeaderLength(tracks)) <= I32_MAX && PayloadLength(tracks) + 8 <= U32_MAX
  }

  lemma {:induction false} TrafsValidate(sequence: u32, tracks: seq<Track>, offsets: seq<i32>, end: nat)
    requires tracks != [] && SizesMatch(tracks) && Offsets(tracks, HeaderLength(tracks)) == Some(offsets)
    requires end == HeaderLength(tracks) + PayloadLength(tracks) <= U64_MAX
    ensures AllJudged(ValidateTrafs(MoofBody(sequence, tracks, offsets), HeaderLength(tracks), end), tracks,
                      Validation(0, 0, 0))
  {
    hide FoldTrafs, ChildPayloads, AllJudged, Trafs, SizesMatch, TrafPayloads;
    OffsetsFit(tracks, HeaderLength(tracks));
    MoofHolds(sequence, tracks, offsets);
    FoldWritten(tracks, HeaderLength(tracks), end, HeaderLength(tracks), Validation(0, 0, 0));
  }

  /** The header as one box and the start of another, alone and with its payload. */
  lemma {:induction false} ReadAsWritten(sequence: u32, tracks: seq<Track>, offsets: seq<i32>)
    requires |tracks| == |offsets| && 24 + TrafsLength(tracks) <= U32_MAX && PayloadLength(tracks) + 8 <= U32_MAX
    ensures var header, body := HeaderBytes(sequence, tracks, offsets), MoofBody(sequence, tracks, offsets);
            var end := HeaderLength(tracks) + PayloadLength(tracks);
            && ValidateHeader(header, PayloadLength(tracks)) == ValidateTrafs(body, HeaderLength(tracks), end)
            && ValidateMedia(header + Payloads(tracks)) == ValidateTrafs(body, HeaderLength(tracks), end)
            && TrafsOf(header + Payloads(tracks)) == TrafPayloads(tracks, offsets)
  {
    hide ValidateHeader, ValidateMedia, ValidateTrafs, TopLevel, Box, MdatHeader, Trafs, TrafPayloads, ChildPayloads,
         Payloads, MfhdBox, PayloadLength, TrafsLength;
    HeaderHasMoof(MoofBody(sequence, tracks, offsets), PayloadLength(tracks));
    AssembledHasMoof(MoofBody(sequence, tracks, offsets), Payloads(tracks));
    MoofHolds(sequence, tracks, offsets);
  }

  /** Validating a header, and validating it with its payload, come to the same: a pass when every track keeps the
      rules. */
  lemma {:induction false} WrittenValidates(sequence: u32, tracks: seq<Track>, offsets: seq<i32>)
    requires tracks != [] && SizesMatch(tracks) && Offsets(tracks, HeaderLength(tracks)) == Some(offsets)
    requires PayloadLength(tracks) + 8 <= U32_MAX
    ensures var header := HeaderBytes(sequence, tracks, offsets);
            && AllJudged(ValidateHeader(header, PayloadLength(tracks)), tracks, Validation(0, 0, 0))
            && ValidateMedia(header + Payloads(tracks)) == ValidateHeader(header, PayloadLength(tracks))
            && TrafsOf(header + Payloads(tracks)) == TrafPayloads(tracks, offsets)
  {
    hide ValidateHeader, ValidateMedia, ValidateTrafs, TrafsOf, AllJudged, HeaderBytes, MoofBody, TrafPayloads,
         SizesMatch, Payloads, Offsets, PayloadLength, TrafsLength, LastOffset;
    OffsetsFit(tracks, HeaderLength(tracks));
    ReadAsWritten(sequence, tracks, offsets);
    TrafsValidate(sequence, tracks, offsets, HeaderLength(tracks) + PayloadLength(tracks));
  }

  /** A fragment is written exactly when its tracks are acceptable. */
  lemma {:induction false} WrittenIffAcceptable(sequence: u32, tracks: seq<Track>)
    ensures MediaFragment(sequence, tracks).Ok? <==> Acceptable(tracks)
  {
    hide ValidateHeader, HeaderBytes, ValidateMedia, TrafsOf, SizesMatch, AllRules, Payloads, HeaderLength,
         TrafPayloads;
    if tracks != [] && SizesMatch(tracks) {
      OffsetsFit(tracks, HeaderLength(tracks));
      var offsets := Offsets(tracks, HeaderLength(tracks));
      if offsets.Some? && PayloadLength(tracks) + 8 <= U32_MAX { WrittenValidates(sequence, tracks, offsets.value); }
    }
  }

  // ----- what is read back -----

  lemma {:induction false} DataAt(before: seq<byte>, tracks: seq<Track>, i: nat)
    requires Offsets(tracks, |before|).Some? && i < |tracks|
    ensures var off, b := Offsets(tracks, |before|).value[i] as int, before + Payloads(tracks);
            |before| <= off && off + |tracks[i].payload| <= |b| &&
                b[off..off + |tracks[i].payload|] == tracks[i].payload
    decreases |tracks|
  {
    var head, tail := tracks[0].payload, Payloads(tracks[1..]);
    OffsetsStep(tracks, |before|);
    Regroup(before, head, tail);
    if i > 0 {
      DataAt(before + head, tracks[1..], i - 1);
    } else {
      assert (before + head + tail)[|before|..|before| + |head|] == head;
    }
  }

  /** What a reader of a fragment finds out about one track. */
  ghost predicate ReadsBack(bytes: seq<byte>, traf: seq<byte>, t: Track) {
    && Child(traf, TFHD).Some? && ReadNumber(Child(traf, TFHD).value) == Some(t.trackId)
    && Child(traf, TFDT).Some? && BaseDecodeTime(Child(traf, TFDT).value) == Some(t.baseDecodeTime)
    && Child(traf, TRUN).Some? && InspectTrun(Child(traf, TRUN).value).Some?
    && var run := InspectTrun(Child(traf, TRUN).value).value;
       && run.samples == t.samples && 0 <= run.dataOffset && run.dataOffset + Sizes(run.samples) <= |bytes|
       && bytes[run.dataOffset..run.dataOffset + Sizes(run.samples)] == t.payload
  }

  lemma {:induction false} TrackReadsBack(bytes: seq<byte>, t: Track, off: i32)
    requires TrafLength(t) <= U32_MAX && |t.samples| <= MAX_SAMPLES && Sizes(t.samples) == |t.payload|
    requires 0 <= off && off + |t.payload| <= |bytes| && bytes[off..off + |t.payload|] == t.payload
    ensures ReadsBack(bytes, TrafPayload(t, off), t)
  {
    hide Child, TrafPayload, TfdtPayload, TrunPayload, NumberPayload, ReadNumber, BaseDecodeTime, InspectTrun, Sizes;
    TrafHolds(t, off);
    NumberRoundTrip(0x02_0000, t.trackId);
    TfdtRoundTrip(t);
    TrunRoundTrip(t.samples, off);
  }

  lemma {:induction false} OneTrafFits(tracks: seq<Track>, i: nat)
    requires i < |tracks|
    ensures TrafLength(tracks[i]) <= TrafsLength(tracks)
    decreases |tracks|
  {
    if i > 0 { OneTrafFits(tracks[1..], i - 1); }
  }

  /** How much there is to count, saturating as the reader does. */
  function Counts(tracks: seq<Track>): Validation {
    Validation(|tracks|, Min(SampleCount(tracks), U64_MAX), Min(PayloadLength(tracks), U64_MAX))
  }

  /** The sequence number a fragment carries. */
  function SequenceOf(bytes: seq<byte>): Option<u32> {
    match TopLevel(bytes, MOOF)
    case None => None
    case Some(moof) => match Child(moof, MFHD) case None => None case Some(mfhd) => ReadNumber(mfhd)
  }

  lemma {:induction false} SequenceReadsBack(sequence: u32, tracks: seq<Track>, offsets: seq<i32>)
    requires |tracks| == |offsets| && 24 + TrafsLength(tracks) <= U32_MAX && PayloadLength(tracks) + 8 <= U32_MAX
    ensures SequenceOf(HeaderBytes(sequence, tracks, offsets) + Payloads(tracks)) == Some(sequence)
  {
    hide ValidateMedia, ValidateTrafs, TopLevel, Child, ChildPayloads, Box, MdatHeader, Trafs, Payloads, MfhdBox,
         ReadNumber, NumberPayload, PayloadLength, TrafsLength;
    AssembledHasMoof(MoofBody(sequence, tracks, offsets), Payloads(tracks));
    MoofHolds(sequence, tracks, offsets);
    NumberRoundTrip(0, sequence);
  }

  ghost predicate AllReadBack(bytes: seq<byte>, trafs: seq<seq<byte>>, tracks: seq<Track>) {
    |trafs| == |tracks| && forall i :: 0 <= i < |tracks| ==> ReadsBack(bytes, trafs[i], tracks[i])
  }

  lemma {:induction false} TracksReadBack(header: seq<byte>, tracks: seq<Track>, offsets: seq<i32>)
    requires Offsets(tracks, |header|) == Some(offsets) && TrafsLength(tracks) <= U32_MAX && SizesMatch(tracks) &&
             AllRules(tracks)
    ensures AllReadBack(header + Payloads(tracks), TrafPayloads(tracks, offsets), tracks)
  {
    hide TrafPayload, ReadsBack, Offsets, Payloads, Sizes;
    var bytes := header + Payloads(tracks);
    forall i | 0 <= i < |tracks| ensures ReadsBack(bytes, TrafPayload(tracks[i], offsets[i]), tracks[i]) {
      OneTrafFits(tracks, i);
      DataAt(header, tracks, i);
      TrackReadsBack(bytes, tracks[i], offsets[i]);
    }
  }

  /** Reading a written fragment gives back the sequence number and every track: its number, its decode time, its
      samples, and through the patched data offset its payload. Validating the whole fragment, or only its header,
      counts all of them. */
  lemma {:induction false} FragmentRoundTrip(sequence: u32, tracks: seq<Track>, header: seq<byte>)
    requires FragmentHeader(sequence, tracks) == Ok(header)
    ensures var bytes := header + Payloads(tracks);
            && MediaFragment(sequence, tracks) == Ok(bytes)
            && |header| == HeaderLength(tracks)
            && ValidateMedia(bytes) == Ok(Counts(tracks))
            && ValidateHeader(header, PayloadLength(tracks)) == ValidateMedia(bytes)
            && SequenceOf(bytes) == Some(sequence)
            && AllReadBack(bytes, TrafsOf(bytes), tracks)
  {
    hide ValidateHeader, ValidateMedia, HeaderBytes, TrafsOf, SizesMatch, AllRules, Payloads, AllReadBack, TrafPayloads,
         SampleCount, PayloadLength, Offsets, TrafsLength, SequenceOf;
    var offsets := Offsets(tracks, HeaderLength(tracks)).value;
    WrittenIffAcceptable(sequence, tracks);
    OffsetsFit(tracks, HeaderLength(tracks));
    WrittenValidates(sequence, tracks, offsets);
    CountsAreSmall(tracks);
    SequenceReadsBack(sequence, tracks, offsets);
    TracksReadBack(header, tracks, offsets);
  }
}
