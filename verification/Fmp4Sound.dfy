/** What it means that a fragment validates: every track plays, and the tracks' data lies in the payload, in order. */
module Fmp4Sound {
  import opened Machine
  import opened Fmp4Boxes
  import opened Fmp4Parse

  /** The decode time and the run a track holds. */
  datatype TrackRun = TrackRun(time: u64, run: Inspected)

  function ReadTrack(traf: seq<byte>): Option<TrackRun> {
    match Child(traf, TFDT)
    case None => None
    case Some(tfdt) =>
      match BaseDecodeTime(tfdt)
      case None => None
      case Some(time) =>
        match Child(traf, TRUN)
        case None => None
        case Some(trun) => match InspectTrun(trun) case None => None case Some(run) => Some(TrackRun(time, run))
  }

  /** Samples that play: there are some, the first decodes on its own, all are usable, clock and bytes fit 64 bits. */
  ghost predicate Playable(samples: seq<Sample>, time: u64) {
    && samples != [] && !NonSync(samples[0].flags)
    && (forall i :: 0 <= i < |samples| ==> Usable(samples[i]))
    && time + Durations(samples) <= U64_MAX && Sizes(samples) <= U64_MAX
  }

  function DataStart(t: TrackRun): int { t.run.dataOffset }

  function DataEnd(t: TrackRun): int { DataStart(t) + Sizes(t.run.samples) }

  /** A track is sound: it plays, and its data lies in `start..end`. */
  ghost predicate Sound(t: TrackRun, start: nat, end: nat) {
    Playable(t.run.samples, t.time) && start <= DataStart(t) && DataEnd(t) <= Min(end, U64_MAX)
  }

  /** The tracks of a fragment; nothing when one of them does not read. */
  function ReadTracks(trafs: seq<seq<byte>>): Option<seq<TrackRun>> {
    if trafs == [] then Some([]) else
      match (ReadTrack(trafs[0]), ReadTracks(trafs[1..]))
      case (Some(first), Some(rest)) => Some([first] + rest)
      case _ => None
  }

  /** They read when each of them does, and then each gives its own. */
  lemma {:induction false} ReadTracksIff(trafs: seq<seq<byte>>)
    ensures ReadTracks(trafs).Some? <==> forall i :: 0 <= i < |trafs| ==> ReadTrack(trafs[i]).Some?
    ensures ReadTracks(trafs).Some? ==>
              && |ReadTracks(trafs).value| == |trafs|
              && forall i :: 0 <= i < |trafs| ==> Some(ReadTracks(trafs).value[i]) == ReadTrack(trafs[i])
    decreases |trafs|
  {
    hide ReadTrack;
    if trafs != [] {
      var rest := trafs[1..];
      ReadTracksIff(rest);
      assert forall i :: 0 < i < |trafs| ==> trafs[i] == rest[i - 1];
      assert forall i :: 0 <= i < |rest| ==> rest[i] == trafs[i + 1];
    }
  }

  /** Every track is sound, and its data ends before that of any later track starts. */
  ghost predicate InOrder(tracks: seq<TrackRun>, start: nat, end: nat) {
    && (forall i :: 0 <= i < |tracks| ==> Sound(tracks[i], start, end))
    && forall i, j :: 0 <= i < j < |tracks| ==> DataEnd(tracks[i]) <= DataStart(tracks[j])
  }

  function TotalSamples(tracks: seq<TrackRun>): nat {
    if tracks == [] then 0 else |tracks[0].run.samples| + TotalSamples(tracks[1..])
  }

  function TotalBytes(tracks: seq<TrackRun>): nat {
    if tracks == [] then 0 else Sizes(tracks[0].run.samples) + TotalBytes(tracks[1..])
  }

  lemma {:induction false} RunIff(t: TrackRun, start: nat, end: nat, previous: nat)
    ensures ValidateRun(t.run, t.time, start, end, previous).Ok? <==> Sound(t, start, end) && previous <= DataStart(t)
    ensures ValidateRun(t.run, t.time, start, end, previous).Ok? ==>
            && ValidateRun(t.run, t.time, start, end, previous).value ==
               Extent(DataEnd(t), Min(|t.run.samples|, U64_MAX), Sizes(t.run.samples))
  {
    hide NonSync, Usable, Sizes, Durations, RunBytes;
    RunPassesIff(t.run.samples, 0, t.time);
  }

  lemma {:induction false} TrackIff(traf: seq<byte>, start: nat, end: nat, previous: nat)
    ensures ReadTrack(traf).None? ==> ValidateTraf(traf, start, end, previous).Err?
    ensures ReadTrack(traf).Some? ==>
            ValidateTraf(traf, start, end, previous) ==
            ValidateRun(ReadTrack(traf).value.run, ReadTrack(traf).value.time, start, end, previous)
  {
    hide Child, InspectTrun, BaseDecodeTime, ValidateRun;
  }

  /** Tracks in order, the first of them not before `previous`. */
  ghost predicate OrderFrom(tracks: seq<TrackRun>, start: nat, end: nat, previous: nat) {
    InOrder(tracks, start, end) && (tracks != [] ==> previous <= DataStart(tracks[0]))
  }

  lemma {:induction false} OrderStep(t: TrackRun, rest: seq<TrackRun>, start: nat, end: nat)
    requires 0 <= DataEnd(t)
    ensures InOrder([t] + rest, start, end) <==> Sound(t, start, end) && OrderFrom(rest, start, end, DataEnd(t))
  {
    hide Sound, DataStart, DataEnd;
    var all := [t] + rest;
    if Sound(t, start, end) && OrderFrom(rest, start, end, DataEnd(t)) {
      forall i | 0 <= i < |all| ensures Sound(all[i], start, end) {
        if i > 0 { assert all[i] == rest[i - 1]; }
      }
      forall i, j | 0 <= i < j < |all| ensures DataEnd(all[i]) <= DataStart(all[j]) {
        assert all[j] == rest[j - 1];
        if i > 0 {
          assert all[i] == rest[i - 1];
        } else if j > 1 {
          StartsBeforeEnd(rest[0]);
          assert DataEnd(rest[0]) <= DataStart(rest[j - 1]);
        }
      }
    }
    if InOrder(all, start, end) {
      assert all[0] == t;
      forall i | 0 <= i < |rest| ensures Sound(rest[i], start, end) { assert all[i + 1] == rest[i]; }
      forall i, j | 0 <= i < j < |rest| ensures DataEnd(rest[i]) <= DataStart(rest[j]) {
        assert all[i + 1] == rest[i] && all[j + 1] == rest[j];
      }
      if rest != [] { assert all[1] == rest[0]; }
    }
  }

  lemma {:induction false} StartsBeforeEnd(t: TrackRun)
    ensures DataStart(t) <= DataEnd(t)
  {
  }

  /** The count after these tracks. */
  function Counted(so: Validation, tracks: seq<TrackRun>): Validation {
    Validation(so.trackCount + |tracks|, Min(so.sampleCount + TotalSamples(tracks), U64_MAX),
               Min(so.payloadBytes + TotalBytes(tracks), U64_MAX))
  }

  lemma {:induction false} CountStep(so: Validation, t: TrackRun, rest: seq<TrackRun>)
    ensures Counted(so, [t] + rest) ==
            Counted(Validation(so.trackCount + 1, SatAdd(so.sampleCount, Min(|t.run.samples|, U64_MAX)),
                               SatAdd(so.payloadBytes, Min(Sizes(t.run.samples), U64_MAX))), rest)
  {
    assert ([t] + rest)[1..] == rest;
  }

  lemma {:induction false} NothingToFold(start: nat, end: nat, previous: nat, so: Validation)
    ensures FoldTrafs([], start, end, previous, so) == Ok(so) == Ok(Counted(so, []))
    ensures ReadTracks([]) == Some([]) && OrderFrom([], start, end, previous)
  {
  }

  /** One step of the fold: the first track decides or the rest goes on behind it. */
  lemma {:induction false} FoldStep(trafs: seq<seq<byte>>, start: nat, end: nat, previous: nat, so: Validation)
    requires trafs != []
    ensures ReadTrack(trafs[0]).None? ==> FoldTrafs(trafs, start, end, previous, so).Err?
    ensures ReadTrack(trafs[0]).Some? ==>
            var t := ReadTrack(trafs[0]).value;
            if Sound(t, start, end) && previous <= DataStart(t)
            then FoldTrafs(trafs, start, end, previous, so) ==
                 FoldTrafs(trafs[1..], start, end, DataEnd(t),
                           Validation(so.trackCount + 1, SatAdd(so.sampleCount, Min(|t.run.samples|, U64_MAX)),
                                      SatAdd(so.payloadBytes, Sizes(t.run.samples))))
            else FoldTrafs(trafs, start, end, previous, so).Err?
  {
    hide ValidateTraf, ValidateRun, ReadTrack, Playable, Sizes, DataStart;
    TrackIff(trafs[0], start, end, previous);
    if ReadTrack(trafs[0]).Some? { RunIff(ReadTrack(trafs[0]).value, start, end, previous); }
  }

  lemma {:induction false} ReadStep(trafs: seq<seq<byte>>)
    requires trafs != []
    ensures ReadTracks(trafs).Some? <==> ReadTrack(trafs[0]).Some? && ReadTracks(trafs[1..]).Some?
    ensures ReadTracks(trafs).Some? ==>
            ReadTracks(trafs).value == [ReadTrack(trafs[0]).value] + ReadTracks(trafs[1..]).value
  {
    hide ReadTrack;
  }

  /** The fold accepts exactly tracks that read, play and lie in order, and counts them, stopping at 64 bits. */
  lemma {:induction false} FoldIff(trafs: seq<seq<byte>>, start: nat, end: nat, previous: nat, so: Validation)
    ensures FoldTrafs(trafs, start, end, previous, so).Ok? <==>
            ReadTracks(trafs).Some? && OrderFrom(ReadTracks(trafs).value, start, end, previous)
    ensures ReadTracks(trafs).Some? && FoldTrafs(trafs, start, end, previous, so).Ok? ==>
            FoldTrafs(trafs, start, end, previous, so).value == Counted(so, ReadTracks(trafs).value)
    decreases |trafs|
  {
    hide FoldTrafs, ReadTracks, ReadTrack, InOrder, Counted, Playable, Sizes;
    if trafs == [] {
      NothingToFold(start, end, previous, so);
    } else {
      FoldStep(trafs, start, end, previous, so);
      if ReadTrack(trafs[0]).Some? {
        var t := ReadTrack(trafs[0]).value;
        if Sound(t, start, end) && previous <= DataStart(t) {
          StartsBeforeEnd(t);
          FoldIff(trafs[1..], start, end, DataEnd(t),
                  Validation(so.trackCount + 1, SatAdd(so.sampleCount, Min(|t.run.samples|, U64_MAX)),
                             SatAdd(so.payloadBytes, Sizes(t.run.samples))));
        }
      }
      ReadStep(trafs);
      if ReadTracks(trafs).Some? {
        var t, rest := ReadTrack(trafs[0]).value, ReadTracks(trafs[1..]).value;
        if DataEnd(t) >= 0 { OrderStep(t, rest, start, end); }
        CountStep(so, t, rest);
      }
    }
  }

  /** The tracks in a header are sound against the payload `start..end`. */
  ghost predicate SoundTracks(moof: seq<byte>, start: nat, end: nat) {
    var trafs := ChildPayloads(moof, TRAF);
    trafs != [] && ReadTracks(trafs).Some? && InOrder(ReadTracks(trafs).value, start, end)
  }

  lemma {:induction false} TracksIff(moof: seq<byte>, start: nat, end: nat)
    ensures ValidateTrafs(moof, start, end).Ok? <==> SoundTracks(moof, start, end)
    ensures SoundTracks(moof, start, end) ==>
            ValidateTrafs(moof, start, end).value ==
            Counted(Validation(0, 0, 0), ReadTracks(ChildPayloads(moof, TRAF)).value)
  {
    hide FoldTrafs, ReadTracks, Counted, Sound;
    var trafs := ChildPayloads(moof, TRAF);
    FoldIff(trafs, start, end, start, Validation(0, 0, 0));
    if SoundTracks(moof, start, end) { FirstIsInside(trafs, start, end); }
  }

  lemma {:induction false} FirstIsInside(trafs: seq<seq<byte>>, start: nat, end: nat)
    requires trafs != [] && ReadTracks(trafs).Some? && InOrder(ReadTracks(trafs).value, start, end)
    ensures start <= DataStart(ReadTracks(trafs).value[0])
  {
  }

  /** A fragment as the validator wants it: a header box, a complete payload box, and tracks sound against its bytes. */
  ghost predicate SoundFragment(bytes: seq<byte>) {
    && TopLevel(bytes, MOOF).Some? && Find(bytes, MDAT).Some?
    && PayloadAt(bytes, Find(bytes, MDAT).value).Some?
    && var start := Find(bytes, MDAT).value + 8;
       SoundTracks(TopLevel(bytes, MOOF).value, start, start + |PayloadAt(bytes, Find(bytes, MDAT).value).value|)
  }

  /** Whatever the bytes: validation accepts exactly sound fragments. */
  lemma {:induction false} MediaValidIff(bytes: seq<byte>)
    ensures ValidateMedia(bytes).Ok? <==> SoundFragment(bytes)
    ensures SoundFragment(bytes) ==>
            ValidateMedia(bytes).value == Counted(Validation(0, 0, 0), ReadTracks(TrafsOf(bytes)).value)
  {
    hide TopLevel, Find, PayloadAt, ReadTracks, SoundTracks, Counted, ValidateTrafs;
    if TopLevel(bytes, MOOF).Some? && Find(bytes, MDAT).Some? && PayloadAt(bytes, Find(bytes, MDAT).value).Some? {
      var start := Find(bytes, MDAT).value + 8;
      TracksIff(TopLevel(bytes, MOOF).value, start, start + |PayloadAt(bytes, Find(bytes, MDAT).value).value|);
    }
  }

  /** A header that ends in the start of a payload box of `n` bytes. */
  predicate AnnouncesPayload(header: seq<byte>, n: nat) {
    && |header| >= 8 && header[|header| - 4..] == MDAT
    && BeUint(header[|header| - 8..|header| - 4]) == n + 8 && |header| + n <= U64_MAX
  }

  /** Whatever the header: validation accepts exactly tracks sound against the `n` bytes to come. */
  lemma {:induction false} HeaderValidIff(header: seq<byte>, n: nat)
    ensures ValidateHeader(header, n).Ok? <==>
            && TopLevel(header, MOOF).Some? && AnnouncesPayload(header, n)
            && SoundTracks(TopLevel(header, MOOF).value, |header|, |header| + n)
  {
    hide TopLevel, ReadTracks, SoundTracks, Counted, ValidateTrafs;
    if TopLevel(header, MOOF).Some? {
      TracksIff(TopLevel(header, MOOF).value, |header|, |header| + n);
    }
  }
}
