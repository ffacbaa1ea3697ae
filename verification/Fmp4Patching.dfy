/** The fragment writer as it runs: every box starts with an empty size, every run with an empty data offset, and both
    are patched in when they are known. */
module Fmp4Patching {
  import opened Machine
  import opened Fmp4Boxes
  import opened Fmp4Parse
  import opened Fmp4Writer

  const ZERO: seq<byte> := [0, 0, 0, 0]

  function Zeros(n: nat): (r: seq<i32>)
    ensures |r| == n
  {
    if n == 0 then [] else [0] + Zeros(n - 1)
  }

  /** Where the data offsets of tracks written from `at` on have to go. */
  function Patches(tracks: seq<Track>, at: nat): (r: seq<nat>)
    ensures |r| == |tracks|
    decreases |tracks|
  {
    if tracks == [] then [] else [at + 60] + Patches(tracks[1..], at + TrafLength(tracks[0]))
  }

  class FragmentWriter {
    var out: seq<byte>
    var patches: seq<nat>

    constructor ()
      ensures out == [] && patches == []
    {
      out, patches := [], [];
    }

    method Put(bytes: seq<byte>)
      modifies this`out
      ensures out == old(out) + bytes
    {
      out := out + bytes;
    }

    method BeginBox(name: seq<byte>) returns (start: nat)
      modifies this`out
      ensures start == |old(out)| && out == old(out) + (ZERO + name)
    {
      start := |out|;
      out := out + (ZERO + name);
    }

    /** Closes the box opened at `start`: its size is known now. */
    method EndBox(start: nat, ghost before: seq<byte>, name: seq<byte>, ghost payload: seq<byte>)
      requires |name| == 4 && start == |before| && out == before + (ZERO + name) + payload
      modifies this`out
      ensures out == before + Box(name, payload)
    {
      Reassembled(before, name, payload, BeBytes(BoxSize(8 + |payload|), 4));
      out := out[..start] + BeBytes(BoxSize(|out| - start), 4) + out[start + 4..];
    }

    method FullBoxStart(version: byte, flags: nat)
      modifies this`out
      ensures out == old(out) + ([version] + BeBytes(flags, 3))
    {
      Put([version] + BeBytes(flags, 3));
    }

    method WriteFullBox(name: seq<byte>, version: byte, flags: nat, payload: seq<byte>)
      requires |name| == 4
      modifies this`out
      ensures out == old(out) + FullBox(name, version, flags, payload)
    {
      ghost var before := out;
      var start := BeginBox(name);
      FullBoxStart(version, flags);
      Put(payload);
      ghost var inside := [version] + BeBytes(flags, 3) + payload;
      Regroup(before + (ZERO + name), [version] + BeBytes(flags, 3), payload);
      EndBox(start, before, name, inside);
    }

    method WriteSample(sample: Sample)
      modifies this`out
      ensures out == old(out) + SampleBytes(sample)
    {
      ghost var before := out;
      Put(BeBytes(sample.duration, 4));
      Put(BeBytes(sample.size, 4));
      Put(BeBytes(sample.flags, 4));
      Put(BeI32(sample.compositionOffset));
      FourParts(before, BeBytes(sample.duration, 4), BeBytes(sample.size, 4), BeBytes(sample.flags, 4),
                BeI32(sample.compositionOffset));
    }

    method WriteSamples(samples: seq<Sample>)
      modifies this`out
      ensures out == old(out) + SampleTable(samples)
    {
      var i: nat := 0;
      ghost var all := out + SampleTable(samples);
      assert samples[0..] == samples;
      while i < |samples|
        invariant i <= |samples| && all == out + SampleTable(samples[i..])
      {
        assert samples[i..][0] == samples[i] && samples[i..][1..] == samples[i + 1..];
        Regroup(out, SampleBytes(samples[i]), SampleTable(samples[i + 1..]));
        WriteSample(samples[i]);
        i := i + 1;
      }
      assert out + [] == out;
    }

    /** A run with an offset of zero; where that is goes to the list of patches. */
    method WriteRun(track: Track)
      modifies this
      ensures out == old(out) + Box(TRUN, TrunPayload(track.samples, 0))
      ensures patches == old(patches) + [|old(out)| + 16]
    {
      ghost var before := out;
      var start := BeginBox(TRUN);
      FullBoxStart(1, 0xf01);
      Put(BeBytes(|track.samples|, 4));
      patches := patches + [|out|];
      Put(BeI32(0));
      WriteSamples(track.samples);
      FourParts(before + (ZERO + TRUN), [1] + BeBytes(0xf01, 3), BeBytes(|track.samples|, 4), BeI32(0),
                SampleTable(track.samples));
      EndBox(start, before, TRUN, TrunPayload(track.samples, 0));
    }

    method WriteTraf(track: Track)
      modifies this
      ensures out == old(out) + Traf(track, 0) && patches == old(patches) + [|old(out)| + 60]
    {
      ghost var before := out;
      var start := BeginBox(TRAF);
      WriteFullBox(TFHD, 0, 0x02_0000, BeBytes(track.trackId, 4));
      WriteFullBox(TFDT, 1, 0, BeBytes(track.baseDecodeTime, 8));
      WriteRun(track);
      ThreeParts(before + (ZERO + TRAF), TfhdBox(track), Box(TFDT, TfdtPayload(track)),
                 Box(TRUN, TrunPayload(track.samples, 0)));
      EndBox(start, before, TRAF, TrafPayload(track, 0));
    }

    method WriteTrafs(tracks: seq<Track>)
      modifies this
      ensures out == old(out) + Trafs(tracks, Zeros(|tracks|))
      ensures patches == old(patches) + Patches(tracks, |old(out)|)
    {
      hide Traf;
      var i: nat := 0;
      ghost var all, places := out + Trafs(tracks, Zeros(|tracks|)), patches + Patches(tracks, |out|);
      assert tracks[0..] == tracks;
      while i < |tracks|
        invariant i <= |tracks| && all == out + Trafs(tracks[i..], Zeros(|tracks| - i))
        invariant places == patches + Patches(tracks[i..], |out|)
      {
        TrafsStep(tracks, i, out, patches);
        WriteTraf(tracks[i]);
        i := i + 1;
      }
      assert out + [] == out && patches + [] == patches;
    }

    method WriteMoof(sequence: u32, tracks: seq<Track>)
      requires out == [] && patches == []
      modifies this
      ensures out == Moof(sequence, tracks, Zeros(|tracks|)) && patches == Patches(tracks, 24)
    {
      var start := BeginBox(MOOF);
      WriteFullBox(MFHD, 0, 0, BeBytes(sequence, 4));
      WriteTrafs(tracks);
      Regroup([] + (ZERO + MOOF), MfhdBox(sequence), Trafs(tracks, Zeros(|tracks|)));
      assert [] + Patches(tracks, 24) == Patches(tracks, 24);
      EndBox(start, [], MOOF, MfhdBox(sequence) + Trafs(tracks, Zeros(|tracks|)));
      assert [] + Moof(sequence, tracks, Zeros(|tracks|)) == Moof(sequence, tracks, Zeros(|tracks|));
    }

    /** Four bytes written over what is there. */
    method Patch(at: nat, bytes: seq<byte>)
      requires |bytes| == 4 && at + 4 <= |out|
      modifies this`out
      ensures out == old(out)[..at] + bytes + old(out)[at + 4..]
    {
      out := out[..at] + bytes + out[at + 4..];
    }

    /** Every offset into its place, and nothing else touched. */
    method PatchOffsets(tracks: seq<Track>, offsets: seq<i32>, ghost before: seq<byte>, ghost after: seq<byte>)
      requires |offsets| == |tracks| && patches == Patches(tracks, |before|)
      requires out == before + Trafs(tracks, Zeros(|tracks|)) + after
      modifies this`out
      ensures out == before + Trafs(tracks, offsets) + after
    {
      hide Traf, Trafs, Patches, BeI32, Zeros;
      var i: nat := 0;
      ghost var pre := before;
      assert tracks[0..] == tracks && offsets[0..] == offsets && patches[0..] == patches;
      while i < |tracks|
        invariant i <= |tracks| && patches[i..] == Patches(tracks[i..], |pre|)
        invariant out == pre + Trafs(tracks[i..], Zeros(|tracks| - i)) + after
        invariant before + Trafs(tracks, offsets) + after == pre + Trafs(tracks[i..], offsets[i..]) + after
      {
        PatchStep(tracks, offsets, patches, i, pre, after);
        Patch(patches[i], BeI32(offsets[i]));
        pre := pre + Traf(tracks[i], offsets[i]);
        i := i + 1;
      }
      NoMoreTrafs(tracks, offsets);
    }
  }

  lemma {:induction false} NoMoreTrafs(tracks: seq<Track>, offsets: seq<i32>)
    requires |tracks| == |offsets|
    ensures Trafs(tracks[|tracks|..], offsets[|tracks|..]) == Trafs(tracks[|tracks|..], Zeros(0)) == []
  {
  }

  lemma {:induction false} Reassembled(before: seq<byte>, name: seq<byte>, payload: seq<byte>, size: seq<byte>)
    requires |name| == 4 && |size| == 4
    ensures var out := before + (ZERO + name) + payload;
            out[..|before|] + size + out[|before| + 4..] == before + (size + name + payload)
  {
    var out := before + (ZERO + name) + payload;
    assert out[|before| + 4..] == name + payload;
    assert out[..|before|] == before;
  }

  lemma {:induction false} ThreeParts(before: seq<byte>, a: seq<byte>, b: seq<byte>, c: seq<byte>)
    ensures before + a + b + c == before + (a + b + c)
  {
  }

  lemma {:induction false} FourParts(before: seq<byte>, a: seq<byte>, b: seq<byte>, c: seq<byte>, d: seq<byte>)
    ensures before + a + b + c + d == before + (a + b + c + d)
  {
  }

  lemma {:induction false} TrafsStep(tracks: seq<Track>, i: nat, out: seq<byte>, patches: seq<nat>)
    requires i < |tracks|
    ensures out + Trafs(tracks[i..], Zeros(|tracks| - i)) ==
            out + Traf(tracks[i], 0) + Trafs(tracks[i + 1..], Zeros(|tracks| - i - 1))
    ensures patches + Patches(tracks[i..], |out|) ==
            patches + [|out| + 60] + Patches(tracks[i + 1..], |out + Traf(tracks[i], 0)|)
  {
    hide Traf;
    var zeros := Zeros(|tracks| - i);
    assert tracks[i..][0] == tracks[i] && tracks[i..][1..] == tracks[i + 1..];
    assert zeros[0] == 0 && zeros[1..] == Zeros(|tracks| - i - 1);
    Regroup(out, Traf(tracks[i], 0), Trafs(tracks[i + 1..], zeros[1..]));
    Regroup(patches, [|out| + 60], Patches(tracks[i + 1..], |out + Traf(tracks[i], 0)|));
  }

  /** A track with its offset is the track without, but for the four bytes 60 bytes in. */
  lemma {:induction false} TrafPatched(track: Track, offset: i32)
    ensures Traf(track, offset) == Traf(track, 0)[..60] + BeI32(offset) + Traf(track, 0)[64..]
  {
    hide TfhdBox, TfdtPayload, SampleTable, BeI32, BeBytes;
    RunPatched(track.samples, offset);
    var run, patched := Box(TRUN, TrunPayload(track.samples, 0)), Box(TRUN, TrunPayload(track.samples, offset));
    var front := BeBytes(BoxSize(8 + |TrafPayload(track, 0)|), 4) + TRAF +
                 (TfhdBox(track) + Box(TFDT, TfdtPayload(track)));
    hide Box, TrunPayload;
    TrafFront(track, 0);
    TrafFront(track, offset);
    Within(front, run, 16, BeI32(offset));
  }

  lemma {:induction false} TrafFront(track: Track, offset: i32)
    ensures var front := BeBytes(BoxSize(8 + |TrafPayload(track, 0)|), 4) + TRAF +
                         (TfhdBox(track) + Box(TFDT, TfdtPayload(track)));
            |front| == 44 && Traf(track, offset) == front + Box(TRUN, TrunPayload(track.samples, offset))
  {
    hide TfhdBox, TfdtPayload, TrunPayload, BeBytes;
  }

  lemma {:induction false} RunPatched(samples: seq<Sample>, offset: i32)
    ensures var run := Box(TRUN, TrunPayload(samples, 0));
            Box(TRUN, TrunPayload(samples, offset)) == run[..16] + BeI32(offset) + run[20..]
  {
    hide SampleTable, BeI32, BeBytes;
    var head := BeBytes(BoxSize(20 + 16 * |samples|), 4) + TRUN + ([1] + BeBytes(0xf01, 3) + BeBytes(|samples|, 4));
    RunFront(samples, 0);
    RunFront(samples, offset);
  }

  lemma {:induction false} RunFront(samples: seq<Sample>, offset: i32)
    ensures var head := BeBytes(BoxSize(20 + 16 * |samples|), 4) + TRUN +
                        ([1] + BeBytes(0xf01, 3) + BeBytes(|samples|, 4));
            |head| == 16 && Box(TRUN, TrunPayload(samples, offset)) == head + BeI32(offset) + SampleTable(samples)
  {
    hide SampleTable, BeI32, BeBytes;
  }

  /** Four bytes changed behind a front are four bytes changed in the whole. */
  lemma {:induction false} Within(front: seq<byte>, s: seq<byte>, at: nat, bytes: seq<byte>)
    requires |bytes| == 4 && at + 4 <= |s|
    ensures var t, k := front + s, |front| + at;
            front + (s[..at] + bytes + s[at + 4..]) == t[..k] + bytes + t[k + 4..]
  {
    var t, k := front + s, |front| + at;
    assert t[..k] == front + s[..at];
    assert t[k + 4..] == s[at + 4..];
  }

  /** Four bytes changed before a tail are four bytes changed in the whole. */
  lemma {:induction false} WithTail(s: seq<byte>, at: nat, bytes: seq<byte>, tail: seq<byte>)
    requires |bytes| == 4 && at + 4 <= |s|
    ensures (s[..at] + bytes + s[at + 4..]) + tail == (s + tail)[..at] + bytes + (s + tail)[at + 4..]
  {
    assert (s + tail)[..at] == s[..at];
    assert (s + tail)[at + 4..] == s[at + 4..] + tail;
  }

  lemma {:induction false} PatchStep(tracks: seq<Track>, offsets: seq<i32>, patches: seq<nat>, i: nat, pre: seq<byte>,
                                     after: seq<byte>)
    requires i < |tracks| == |offsets| == |patches| && patches[i..] == Patches(tracks[i..], |pre|)
    ensures patches[i] == |pre| + 60 &&
            patches[i + 1..] == Patches(tracks[i + 1..], |pre + Traf(tracks[i], offsets[i])|)
    ensures var out := pre + Trafs(tracks[i..], Zeros(|tracks| - i)) + after;
            var done := pre + Traf(tracks[i], offsets[i]);
            && |out| >= patches[i] + 4
            && out[..patches[i]] + BeI32(offsets[i]) + out[patches[i] + 4..] ==
               done + Trafs(tracks[i + 1..], Zeros(|tracks| - i - 1)) + after
            && pre + Trafs(tracks[i..], offsets[i..]) + after == done + Trafs(tracks[i + 1..], offsets[i + 1..]) + after
  {
    hide Traf, BeI32;
    var t, off, zeros := tracks[i], offsets[i], Zeros(|tracks| - i);
    var rest := Trafs(tracks[i + 1..], Zeros(|tracks| - i - 1));
    assert tracks[i..][0] == t && tracks[i..][1..] == tracks[i + 1..] && offsets[i..][0] == off &&
           offsets[i..][1..] == offsets[i + 1..];
    assert zeros[0] == 0 && zeros[1..] == Zeros(|tracks| - i - 1);
    assert patches[i..][0] == patches[i] && patches[i..][1..] == patches[i + 1..];
    TrafPatched(t, off);
    Within(pre, Traf(t, 0), 60, BeI32(off));
    WithTail(pre + Traf(t, 0), |pre| + 60, BeI32(off), rest + after);
    Regroup(pre, Traf(t, 0), rest);
    Regroup(pre + Traf(t, 0), rest, after);
    Regroup(pre + Traf(t, off), rest, after);
    Regroup(pre, Traf(t, off), Trafs(tracks[i + 1..], offsets[i + 1..]));
  }

  // ----- the whole header -----

  /** Where each track's data starts, or that an offset does not fit. */
  method DataOffsets(tracks: seq<Track>, start: nat) returns (r: Option<seq<i32>>, end: nat)
    ensures r == Offsets(tracks, start) && (r.Some? ==> end == start + PayloadLength(tracks))
  {
    var offsets: seq<i32>, i: nat := [], 0;
    end := start;
    assert tracks[0..] == tracks;
    OffsetsAfter([], Offsets(tracks, start));
    while i < |tracks|
      invariant i <= |tracks| && end + PayloadLength(tracks[i..]) == start + PayloadLength(tracks)
      invariant Offsets(tracks, start) == After(offsets, Offsets(tracks[i..], end))
    {
      assert tracks[i..][0] == tracks[i] && tracks[i..][1..] == tracks[i + 1..];
      if end > I32_MAX { return None, end; }
      OffsetsMore(offsets, end, Offsets(tracks[i + 1..], end + |tracks[i].payload|));
      offsets := offsets + [end];
      end := end + |tracks[i].payload|;
      i := i + 1;
    }
    OffsetsAfter(offsets, Some([]));
    return Some(offsets), end;
  }

  function After(offsets: seq<i32>, rest: Option<seq<i32>>): Option<seq<i32>> {
    match rest case None => None case Some(more) => Some(offsets + more)
  }

  lemma {:induction false} OffsetsAfter(offsets: seq<i32>, rest: Option<seq<i32>>)
    ensures After([], rest) == rest && After(offsets, Some([])) == Some(offsets)
  {
    if rest.Some? { assert [] + rest.value == rest.value; }
    assert offsets + [] == offsets;
  }

  lemma {:induction false} OffsetsMore(offsets: seq<i32>, one: i32, rest: Option<seq<i32>>)
    ensures After(offsets, After([one], rest)) == After(offsets + [one], rest)
  {
    if rest.Some? { Regroup(offsets, [one], rest.value); }
  }

  method CheckSizes(tracks: seq<Track>) returns (ok: bool)
    ensures ok == SizesMatch(tracks)
  {
    var i: nat := 0;
    while i < |tracks|
      invariant i <= |tracks| && forall k :: 0 <= k < i ==> Sizes(tracks[k].samples) == |tracks[k].payload|
    {
      if Sizes(tracks[i].samples) != |tracks[i].payload| { return false; }
      i := i + 1;
    }
    return true;
  }

  /** The header as the writer makes it. */
  method WriteFragmentHeader(sequence: u32, tracks: seq<Track>) returns (r: Result<seq<byte>, Error>)
    ensures r == FragmentHeader(sequence, tracks)
  {
    hide ValidateHeader, Moof, Trafs, PayloadLength, Offsets, SizesMatch, Patches, Box, MfhdBox, Zeros;
    if tracks == [] { return Err(NoTracks); }
    var ok := CheckSizes(tracks);
    if !ok { return Err(SizeMismatch); }
    var w := new FragmentWriter();
    w.WriteMoof(sequence, tracks);
    var offsets, end := DataOffsets(tracks, |w.out| + 8);
    if offsets.None? { return Err(TooLarge); }
    var n := end - (|w.out| + 8);
    if n + 8 > U32_MAX { return Err(TooLarge); }
    w.Put(BeBytes(n + 8, 4));
    w.Put(MDAT);
    MoofAsParts(sequence, tracks, Zeros(|tracks|), n);
    w.PatchOffsets(tracks, offsets.value, MoofFront(sequence, tracks), MdatHeader(n));
    MoofAsParts(sequence, tracks, offsets.value, n);
    var checked := ValidateFragmentHeader(w.out, n);
    if checked.Err? { return Err(checked.error); }
    return Ok(w.out);
  }

  /** A `moof` up to its first track. */
  function MoofFront(sequence: u32, tracks: seq<Track>): (b: seq<byte>)
    ensures |b| == 24
  {
    BeBytes(BoxSize(24 + TrafsLength(tracks)), 4) + MOOF + MfhdBox(sequence)
  }

  lemma {:induction false} MoofAsParts(sequence: u32, tracks: seq<Track>, offsets: seq<i32>, n: nat)
    requires |offsets| == |tracks|
    ensures Moof(sequence, tracks, offsets) + BeBytes(n + 8, 4) + MDAT ==
            MoofFront(sequence, tracks) + Trafs(tracks, offsets) + MdatHeader(n) ==
            Moof(sequence, tracks, offsets) + MdatHeader(n)
  {
    hide MfhdBox, Trafs, BeBytes, TrafsLength;
    var size := BeBytes(BoxSize(24 + TrafsLength(tracks)), 4);
    assert Moof(sequence, tracks, offsets) == MoofFront(sequence, tracks) + Trafs(tracks, offsets);
    Regroup(Moof(sequence, tracks, offsets), BeBytes(n + 8, 4), MDAT);
  }

  // ----- what a fragment takes -----

  function Overhead(tracks: seq<Track>): nat {
    if tracks == [] then 256 else Overhead(tracks[1..]) + 16 * |tracks[0].samples| + 128
  }

  lemma {:induction false} OverheadCovers(tracks: seq<Track>)
    ensures HeaderLength(tracks) <= Overhead(tracks)
    decreases |tracks|
  {
    if tracks != [] { OverheadCovers(tracks[1..]); }
  }

  datatype Owned = Owned(header: seq<byte>, tracks: seq<Track>, length: nat) {
    /** What is published: the header, then the tracks as they are. */
    function Parts(): seq<seq<byte>> { [header] + PayloadParts(tracks) }
  }

  function PayloadParts(tracks: seq<Track>): (r: seq<seq<byte>>)
    ensures Flatten(r) == Payloads(tracks)
  {
    if tracks == [] then [] else [tracks[0].payload] + PayloadParts(tracks[1..])
  }

  /** Accepts a fragment only within the limit, judged before anything is written. What is added up is in memory, so
      no sum leaves `usize`. */
  method NewOwned(sequence: u32, tracks: seq<Track>, limit: usize) returns (r: Result<Owned, Error>)
    ensures r.Ok? <==> PayloadLength(tracks) + Overhead(tracks) <= limit && FragmentHeader(sequence, tracks).Ok?
    ensures r.Ok? ==> MediaFragment(sequence, tracks) == Ok(Flatten(r.value.Parts()))
    ensures r.Ok? ==> r.value.length == |Flatten(r.value.Parts())| <= limit
  {
    hide FragmentHeader, PayloadLength, Overhead, HeaderLength, Payloads;
    var i: nat, payload, overhead := 0, 0, 256;
    assert tracks[0..] == tracks;
    SumsStart(tracks);
    while i < |tracks|
      invariant i <= |tracks| && payload + PayloadLength(tracks[i..]) == PayloadLength(tracks)
      invariant overhead + Overhead(tracks[i..]) == Overhead(tracks) + 256
    {
      SumsStep(tracks, i);
      payload := payload + |tracks[i].payload|;
      overhead := overhead + 16 * |tracks[i].samples| + 128;
      i := i + 1;
    }
    SumsStart([]);
    assert tracks[i..] == [];
    if payload + overhead > limit { return Err(TooLarge); }
    var header := WriteFragmentHeader(sequence, tracks);
    if header.Err? { return Err(header.error); }
    OverheadCovers(tracks);
    HeaderHasLength(sequence, tracks);
    r := Ok(Owned(header.value, tracks, |header.value| + payload));
    assert r.value.Parts()[1..] == PayloadParts(tracks);
  }

  lemma {:induction false} SumsStart(tracks: seq<Track>)
    ensures tracks == [] ==> PayloadLength(tracks) == 0 && Overhead(tracks) == 256
  {
  }

  lemma {:induction false} SumsStep(tracks: seq<Track>, i: nat)
    requires i < |tracks|
    ensures PayloadLength(tracks[i..]) == |tracks[i].payload| + PayloadLength(tracks[i + 1..])
    ensures Overhead(tracks[i..]) == Overhead(tracks[i + 1..]) + 16 * |tracks[i].samples| + 128
  {
    assert tracks[i..][0] == tracks[i] && tracks[i..][1..] == tracks[i + 1..];
  }

  lemma {:induction false} HeaderHasLength(sequence: u32, tracks: seq<Track>)
    ensures FragmentHeader(sequence, tracks).Ok? ==> |FragmentHeader(sequence, tracks).value| == HeaderLength(tracks)
  {
    hide ValidateHeader, HeaderBytes, PayloadLength, Offsets, SizesMatch, HeaderLength;
  }
}
