/** Whole Matroska blocks, written and parsed back: section 10 of RFC 9559. */
module LacedBlocks {
  import opened Machine
  import opened Lacing

  /** How an encoder packs the frames of a block; EBML lacing leaves it the lengths of its numbers. */
  datatype Packing = Unlaced | Xiph | Fixed | Ebml(lengths: seq<nat>)

  function Mode(p: Packing): nat {
    match p case Unlaced => 0 case Xiph => 1 case Fixed => 2 case Ebml(_) => 3
  }

  function SizesOf(frames: seq<seq<byte>>): (r: seq<nat>)
    ensures |r| == |frames| && forall i :: 0 <= i < |frames| ==> r[i] == |frames[i]|
  {
    if frames == [] then [] else [|frames[0]|] + SizesOf(frames[1..])
  }

  /** The frames a packing can hold. */
  predicate Packs(p: Packing, sizes: seq<nat>) {
    match p
    case Unlaced => |sizes| == 1
    case Xiph => 1 <= |sizes| <= 256
    case Fixed => 1 <= |sizes| <= 256 && forall i :: 0 <= i < |sizes| ==> sizes[i] == sizes[0]
    case Ebml(lengths) => EbmlEncodes(sizes, lengths)
  }

  function LaceHeader(p: Packing, sizes: seq<nat>): seq<byte>
    requires Packs(p, sizes)
  {
    match p
    case Unlaced => []
    case Xiph => XiphHeader(sizes)
    case Fixed => [|sizes| - 1]
    case Ebml(lengths) => EbmlHeader(sizes, lengths)
  }

  /** What stands in front of the frames: the track and the bytes its number takes, the time, the flags. */
  datatype Head = Head(track: nat, trackLength: nat, timecode: int, flags: byte)

  predicate HeadFits(h: Head, p: Packing) {
    FitsVint(h.track, h.trackLength) && -0x8000 <= h.timecode < 0x8000 && h.flags as int / 2 % 4 == Mode(p)
  }

  function HeadBytes(h: Head, p: Packing): (b: seq<byte>)
    requires HeadFits(h, p)
    ensures |b| == h.trackLength + 3
  {
    EncodeVint(h.track, h.trackLength) + BeBytes(h.timecode % 0x1_0000, 2) + [h.flags]
  }

  function EncodeBlock(h: Head, p: Packing, frames: seq<seq<byte>>): seq<byte>
    requires HeadFits(h, p) && Packs(p, SizesOf(frames))
  {
    HeadBytes(h, p) + LaceHeader(p, SizesOf(frames)) + Flatten(frames)
  }

  // ----- the lace table -----

  lemma {:induction false} SizesSum(frames: seq<seq<byte>>)
    ensures Sum(SizesOf(frames)) == |Flatten(frames)|
  {
    if frames != [] {
      SizesSum(frames[1..]);
      assert SizesOf(frames)[1..] == SizesOf(frames[1..]);
    }
  }

  lemma {:induction false} AllCopies(sizes: seq<nat>)
    requires sizes != [] && forall i :: 0 <= i < |sizes| ==> sizes[i] == sizes[0]
    ensures sizes == Copies(sizes[0], |sizes|)
    decreases |sizes|
  {
    if |sizes| > 1 {
      assert forall i :: 0 <= i < |sizes[1..]| ==> sizes[1..][i] == sizes[i + 1];
      AllCopies(sizes[1..]);
    } else {
      assert sizes == [sizes[0]];
    }
  }

  lemma {:induction false} UnlacedInverse(before: seq<byte>, sizes: seq<nat>, data: seq<byte>)
    requires |sizes| == 1 && |data| == Sum(sizes)
    ensures var b := before + [] + data; LaceOf(b, |b|, |before|, 0) == Some(Lace(sizes, |before|))
  {
    assert sizes == [sizes[0]];
    OneSum(sizes[0]);
  }

  lemma {:induction false} SameSizesInverse(before: seq<byte>, sizes: seq<nat>, data: seq<byte>)
    requires Packs(Fixed, sizes) && |data| == Sum(sizes)
    ensures var b := before + [|sizes| - 1] + data; FixedLace(b, |b|, |before|) == Some(Lace(sizes, |before| + 1))
  {
    hide FixedLace;
    AllCopies(sizes);
    CopiesSum(sizes[0], |sizes|);
    FixedInverse(before, sizes[0], |sizes|, data);
  }

  /** Whatever the packing, its table parses back to the sizes. */
  lemma {:induction false} LaceInverse(before: seq<byte>, p: Packing, sizes: seq<nat>, data: seq<byte>)
    requires Packs(p, sizes) && |data| == Sum(sizes)
    ensures var b := before + LaceHeader(p, sizes) + data;
            LaceOf(b, |b|, |before|, Mode(p)) == Some(Lace(sizes, |before| + |LaceHeader(p, sizes)|))
  {
    hide XiphLace, FixedLace, EbmlLace, XiphHeader, EbmlHeader, EbmlEncodes, Sum;
    match p
    case Unlaced => UnlacedInverse(before, sizes, data);
    case Xiph => XiphInverse(before, sizes, data);
    case Fixed => SameSizesInverse(before, sizes, data);
    case Ebml(lengths) => EbmlInverse(before, sizes, lengths, data);
  }

  // ----- the frames -----

  /** The parsed frame says where the bytes of the written one are. */
  ghost predicate Locates(b: seq<byte>, base: nat, f: Frame, bytes: seq<byte>) {
    && f.size == |bytes| && base <= f.offset && f.offset - base + f.size <= |b|
    && b[f.offset - base..f.offset - base + f.size] == bytes
  }

  ghost predicate LocatesAll(b: seq<byte>, base: nat, parsed: seq<Frame>, frames: seq<seq<byte>>) {
    |parsed| == |frames| && forall i :: 0 <= i < |frames| ==> Locates(b, base, parsed[i], frames[i])
  }

  predicate SizesFit(frames: seq<seq<byte>>) { forall i :: 0 <= i < |frames| ==> |frames[i]| <= U32_MAX }

  lemma {:induction false} FramesLocated(b: seq<byte>, base: nat, cursor: nat, frames: seq<seq<byte>>)
    requires cursor <= |b| && b[cursor..] == Flatten(frames) && base + |b| <= U64_MAX
    ensures FramesFrom(base, cursor, SizesOf(frames)).Some? <==> SizesFit(frames)
    ensures SizesFit(frames) ==> LocatesAll(b, base, FramesFrom(base, cursor, SizesOf(frames)).value, frames)
    decreases |frames|
  {
    if frames != [] {
      hide Locates, LocatesAll, SizesFit, FramesFrom;
      var first, rest, next := frames[0], frames[1..], cursor + |frames[0]|;
      assert frames == [first] + rest;
      FirstIsThere(b, cursor, first, Flatten(rest));
      FramesLocated(b, base, next, rest);
      FramesStep(base, cursor, first, rest);
      SizesFitStep(frames);
      if SizesFit(frames) {
        LocatedInFront(b, base, Frame(base + cursor, |first|), FramesFrom(base, next, SizesOf(rest)).value, first,
                       rest);
      }
    }
  }

  lemma {:induction false} FramesStep(base: nat, cursor: nat, first: seq<byte>, rest: seq<seq<byte>>)
    requires base + cursor + |first| <= U64_MAX
    ensures var tail := FramesFrom(base, cursor + |first|, SizesOf(rest));
            FramesFrom(base, cursor, SizesOf([first] + rest)) ==
            if |first| > U32_MAX || tail.None? then None else Some([Frame(base + cursor, |first|)] + tail.value)
  {
    assert ([first] + rest)[1..] == rest && SizesOf([first] + rest)[1..] == SizesOf(rest);
  }

  lemma {:induction false} SizesFitStep(frames: seq<seq<byte>>)
    requires frames != []
    ensures SizesFit(frames) <==> |frames[0]| <= U32_MAX && SizesFit(frames[1..])
  {
    assert forall i :: 0 <= i < |frames[1..]| ==> frames[1..][i] == frames[i + 1];
    if |frames[0]| <= U32_MAX && SizesFit(frames[1..]) { SizesFitInFront(frames); }
  }

  lemma {:induction false} SizesFitInFront(frames: seq<seq<byte>>)
    requires frames != [] && |frames[0]| <= U32_MAX && SizesFit(frames[1..])
    ensures SizesFit(frames)
  {
    forall i | 0 <= i < |frames| ensures |frames[i]| <= U32_MAX { if i > 0 { assert frames[i] == frames[1..][i - 1]; } }
  }

  lemma {:induction false} FirstIsThere(b: seq<byte>, cursor: nat, first: seq<byte>, tail: seq<byte>)
    requires cursor <= |b| && b[cursor..] == first + tail
    ensures cursor + |first| <= |b| && b[cursor..cursor + |first|] == first && b[cursor + |first|..] == tail
  {
    assert b[cursor..][..|first|] == b[cursor..cursor + |first|];
    assert b[cursor..][|first|..] == b[cursor + |first|..];
  }

  lemma {:induction false} LocatedInFront(b: seq<byte>, base: nat, f: Frame, parsed: seq<Frame>, first: seq<byte>,
                                          rest: seq<seq<byte>>)
    requires f.size == |first| && base <= f.offset && f.offset - base + f.size <= |b|
    requires b[f.offset - base..f.offset - base + f.size] == first && LocatesAll(b, base, parsed, rest)
    ensures LocatesAll(b, base, [f] + parsed, [first] + rest)
  {
    assert Locates(b, base, f, first);
    hide Locates;
    forall i | 0 <= i < |rest| + 1 ensures Locates(b, base, ([f] + parsed)[i], ([first] + rest)[i]) {
      if i > 0 { assert Locates(b, base, parsed[i - 1], rest[i - 1]); }
    }
  }

  // ----- the block -----

  lemma {:induction false} HeadParses(h: Head, p: Packing, rest: seq<byte>)
    requires HeadFits(h, p)
    ensures var b, n := HeadBytes(h, p) + rest, h.trackLength;
            ReadVintSize(b) == Some(Vint(h.track, n)) && Signed16(BeUint(b[n..n + 2])) == h.timecode &&
                b[n + 2] == h.flags
  {
    hide ReadVintSize, EncodeVint, BeUint, BeBytes;
    var track, time := EncodeVint(h.track, h.trackLength), BeBytes(h.timecode % 0x1_0000, 2);
    var b := HeadBytes(h, p) + rest;
    assert b == track + (time + [h.flags] + rest);
    VintRoundTrip(h.track, h.trackLength, time + [h.flags] + rest);
    assert b[h.trackLength..h.trackLength + 2] == time;
    TimecodeReads(h.timecode);
  }

  lemma {:induction false} TimecodeReads(timecode: int)
    requires -0x8000 <= timecode < 0x8000
    ensures Signed16(BeUint(BeBytes(timecode % 0x1_0000, 2))) == timecode
  {
    assert Pow256(1) == 256 && Pow256(2) == 0x1_0000;
    BeRoundTrip(timecode % 0x1_0000, 2);
  }

  lemma {:induction false} ModeOf(flags: byte)
    ensures LacingMode(flags) == flags as int / 2 % 4
  {
  }

  /** A block of any frames in any packing parses back: its track, its time, its keyframe flag unless that is given, and
      for every frame where its bytes are. It fails exactly when a frame's size needs more than 32 bits. */
  lemma {:induction false} BlockRoundTrip(h: Head, p: Packing, frames: seq<seq<byte>>, base: nat, forced: Option<bool>)
    requires HeadFits(h, p) && Packs(p, SizesOf(frames)) && base + |EncodeBlock(h, p, frames)| <= U64_MAX
    ensures var b := EncodeBlock(h, p, frames);
            var r := ParseBlock(b, base, forced);
            && (r.Some? <==> SizesFit(frames))
            && (r.Some? ==>
                  && r.value.trackNumber == h.track && r.value.relativeTimecode == h.timecode
                  && r.value.keyframe == (if forced.Some? then forced.value else h.flags >= 128)
                  && LocatesAll(b, base, r.value.frames, frames))
  {
    hide HeadBytes, LaceHeader, LaceOf, ReadVintSize, BeUint, Signed16, FramesFrom, SizesFit, LocatesAll, Packs,
         FitsVint, LacingMode;
    var head, lace, data := HeadBytes(h, p), LaceHeader(p, SizesOf(frames)), Flatten(frames);
    var b := head + lace + data;
    Regroup(head, lace, data);
    HeadParses(h, p, lace + data);
    ModeOf(h.flags);
    SizesSum(frames);
    LaceInverse(head, p, SizesOf(frames), data);
    assert b[|head| + |lace|..] == data;
    FramesLocated(b, base, |head| + |lace|, frames);
  }
}
