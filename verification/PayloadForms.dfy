/** What conversion makes of a packet: start-coded units with the parameter sets in front, or an ADTS frame. */
module PayloadForms {
  import opened Machine
  import opened Media
  import opened AnnexB
  import opened MuxPayload

  /** Units, each behind its length in `size` bytes, as MP4 and Matroska store them. */
  function Prefixed(units: seq<seq<byte>>, size: nat): seq<byte> {
    if units == [] then [] else BeBytes(|units[0]|, size) + units[0] + Prefixed(units[1..], size)
  }

  /** Units as a byte stream, each behind a start code. */
  function ByteStream(units: seq<seq<byte>>): seq<byte> {
    if units == [] then [] else [0, 0, 0, 1] + units[0] + ByteStream(units[1..])
  }

  function NonEmpty(units: seq<seq<byte>>): seq<seq<byte>> {
    if units == [] then [] else (if units[0] == [] then [] else [units[0]]) + NonEmpty(units[1..])
  }

  /** H.264 conversion leaves empty units out, H.265 conversion does not. */
  function KeptUnits(codec: Codec, units: seq<seq<byte>>): seq<seq<byte>> {
    if codec == Codec.Hevc then units else NonEmpty(units)
  }

  /** Lengths that fit their prefix. */
  ghost predicate Fitting(units: seq<seq<byte>>, size: nat) { forall u <- units :: |u| < Pow256(size) }

  // ----- a written sample parses to its units -----

  lemma {:induction false} Pieces(before: seq<byte>, a: seq<byte>, u: seq<byte>, rest: seq<byte>)
    ensures var s, n := before + (a + u + rest), |before|;
            && s[n..n + |a|] == a && s[n + |a|..n + |a| + |u|] == u && s == before + a + u + rest
            && |s| == n + |a| + |u| + |rest|
  {
  }

  lemma {:induction false} FirstNal(sample: seq<byte>, before: seq<byte>, units: seq<seq<byte>>, size: nat)
    requires units != [] && ValidLengthSize(size) && Fitting(units, size) && sample == before + Prefixed(units, size)
    ensures |before| < |sample|
    ensures NalAt(sample, size, |before|) == Ok(Nal.Nal(|before| + size, |units[0]|))
    ensures |before| + size + |units[0]| <= |sample|
    ensures sample[|before| + size..|before| + size + |units[0]|] == units[0]
    ensures sample == before + BeBytes(|units[0]|, size) + units[0] + Prefixed(units[1..], size)
    ensures Fitting(units[1..], size)
  {
    hide BeBytes, Pow256, BeUint;
    var u, n := units[0], |before|;
    assert u in units;
    BeRoundTrip(|u|, size);
    Pieces(before, BeBytes(|u|, size), u, Prefixed(units[1..], size));
  }

  lemma {:induction false} PrefixedParses(codec: Codec, sample: seq<byte>, before: seq<byte>, units: seq<seq<byte>>,
                                          size: nat)
    requires ValidLengthSize(size) && Fitting(units, size) && sample == before + Prefixed(units, size)
    ensures var nals := Nals(sample, size, |before|);
            && nals.Ok? && (forall n <- nals.value :: End(n) <= |sample|)
            && StartCoded(codec, sample, nals.value) == ByteStream(KeptUnits(codec, units))
    decreases |units|
  {
    hide NalAt, BeBytes, Prefixed, Fitting, Nals, StartCoded, ByteStream, KeptUnits, Pow256;
    if units == [] {
      NoUnits(codec, before, size);
      assert before + [] == before;
    } else {
      var u := units[0];
      var next := before + BeBytes(|u|, size) + u;
      FirstNal(sample, before, units, size);
      PrefixedParses(codec, sample, next, units[1..], size);
      var nal, rest := Nal.Nal(|before| + size, |u|), Nals(sample, size, |next|).value;
      NalsFirst(sample, size, |before|);
      CodedStep(codec, sample, nal, rest, u);
      KeptStep(codec, units);
    }
  }

  lemma {:induction false} NoUnits(codec: Codec, sample: seq<byte>, size: nat)
    requires ValidLengthSize(size)
    ensures Prefixed([], size) == [] && Nals(sample, size, |sample|) == Ok([])
    ensures StartCoded(codec, sample, []) == ByteStream(KeptUnits(codec, []))
  {
  }

  lemma {:induction false} CodedStep(codec: Codec, sample: seq<byte>, n: Nal, rest: seq<Nal>, u: seq<byte>)
    requires End(n) <= |sample| && (forall m <- rest :: End(m) <= |sample|) && Unit(sample, n) == u
    ensures forall m <- [n] + rest :: End(m) <= |sample|
    ensures StartCoded(codec, sample, [n] + rest) ==
            (if codec.Hevc? || u != [] then [0, 0, 0, 1] + u else []) + StartCoded(codec, sample, rest)
  {
    hide StartCoded;
    StartCodedStep(codec, sample, n, rest);
  }

  lemma {:induction false} NalsFirst(sample: seq<byte>, size: nat, at: nat)
    requires at < |sample| && ValidLengthSize(size) && NalAt(sample, size, at).Ok?
    requires Nals(sample, size, End(NalAt(sample, size, at).value)).Ok?
    ensures var nal := NalAt(sample, size, at).value;
            Nals(sample, size, at) == Ok([nal] + Nals(sample, size, End(nal)).value) && End(nal) <= |sample|
  {
    hide NalAt;
  }

  lemma {:induction false} KeptStep(codec: Codec, units: seq<seq<byte>>)
    requires units != []
    ensures ByteStream(KeptUnits(codec, units)) ==
            (if codec.Hevc? || units[0] != [] then [0, 0, 0, 1] + units[0] else [])
            + ByteStream(KeptUnits(codec, units[1..]))
  {
    var more := NonEmpty(units[1..]);
    assert [] + more == more && ([units[0]] + more)[1..] == more;
    assert [] + ByteStream(more) == ByteStream(more);
  }

  lemma {:induction false} OnlyTheLimit(codec: Codec, sample: seq<byte>, size: nat, at: nat, sofar: nat)
    requires at <= |sample| && ValidLengthSize(size) && Nals(sample, size, at).Ok?
    ensures var r := Sized(codec, sample, size, at, sofar); r.Err? ==> r.error == ResourceLimit
    decreases |sample| - at
  {
    if at < |sample| {
      var nal := NalAt(sample, size, at).value;
      OnlyTheLimit(codec, sample, size, End(nal), if Kept(codec, nal) then sofar + 4 + nal.length else sofar);
    }
  }

  /** Conversion of a written sample gives its units behind start codes, up to 64 MiB. */
  lemma {:induction false} AppendedIs(codec: Codec, units: seq<seq<byte>>, size: nat)
    requires ValidLengthSize(size) && Fitting(units, size)
    ensures Appended(codec, [], Prefixed(units, size), size) ==
            if |ByteStream(KeptUnits(codec, units))| <= 0x400_0000 then Ok(ByteStream(KeptUnits(codec, units)))
            else Err(ResourceLimit)
  {
    hide Nals, Sized, StartCoded, ByteStream, KeptUnits, Prefixed, Fitting;
    var sample := Prefixed(units, size);
    assert sample == [] + sample;
    PrefixedParses(codec, sample, [], units, size);
    SizedIff(codec, sample, size, 0, 0);
    OnlyTheLimit(codec, sample, size, 0, 0);
    var stream := ByteStream(KeptUnits(codec, units));
    assert [] + stream == stream;
  }

  // ----- parameter sets -----

  lemma {:induction false} SetsAreStream(sets: seq<seq<byte>>)
    ensures ParameterSets(sets) == ByteStream(sets)
  {
    if sets != [] { SetsAreStream(sets[1..]); }
  }

  lemma {:induction false} StreamAppend(a: seq<seq<byte>>, b: seq<seq<byte>>)
    ensures ByteStream(a + b) == ByteStream(a) + ByteStream(b)
  {
    if a == [] {
      assert a + b == b;
    } else {
      assert (a + b)[1..] == a[1..] + b;
      StreamAppend(a[1..], b);
    }
  }

  /** An H.265 packet: the units of its sample, and before those of a keyframe the parameter sets as configured. */
  lemma {:induction false} HevcPayload(p: PacketRef, size: byte, sets: seq<byte>, units: seq<seq<byte>>)
    requires 1 <= size <= 4 && Fitting(units, size)
    ensures Converted(Prefixed(units, size), p, PayloadKind.Hevc(size, sets)) ==
            if |ByteStream(units)| > 0x400_0000 then Err(MuxError.Nal(ResourceLimit))
            else Ok((if p.keyframe then sets else []) + ByteStream(units))
  {
    hide Appended, ByteStream, Prefixed, Fitting;
    AppendedIs(Codec.Hevc, units, size);
  }

  /** An H.264 packet that does not look like a byte stream already: its units, the parameter sets before those of a
      keyframe. One that does is passed on as it is. */
  lemma {:induction false} AvcPayload(p: PacketRef, size: byte, sps: seq<seq<byte>>, pps: seq<seq<byte>>,
                                      units: seq<seq<byte>>)
    requires 1 <= size <= 4 && Fitting(units, size)
    ensures var sample, sets := Prefixed(units, size), if p.keyframe then sps + pps else [];
            Converted(sample, p, PayloadKind.Avc(size, sps, pps)) ==
            if [0, 0, 1] <= sample || [0, 0, 0, 1] <= sample then Ok(ByteStream(sets) + sample)
            else if |ByteStream(NonEmpty(units))| > 0x400_0000 then Err(MuxError.Nal(ResourceLimit))
            else Ok(ByteStream(sets + NonEmpty(units)))
  {
    hide Appended, ByteStream, Prefixed, Fitting, ParameterSets;
    AppendedIs(Codec.Avc, units, size);
    SetsAreStream(sps);
    SetsAreStream(pps);
    StreamAppend(sps, pps);
    NothingCoded();
    StreamAppend(if p.keyframe then sps + pps else [], NonEmpty(units));
  }

  /** Other audio is passed on as it is; lengths of no bytes or more than four are refused. */
  lemma {:induction false} OtherPayloads(payload: seq<byte>, p: PacketRef, kind: PayloadKind)
    ensures kind.Ac3? || kind.Eac3? || kind.RawAudio? ==> Converted(payload, p, kind) == Ok(payload)
    ensures kind.Hevc? && !(1 <= kind.naluLengthSize <= 4) ==>
              Converted(payload, p, kind) == Err(MuxError.Nal(InvalidLengthSize))
    ensures && kind.Avc? && !(1 <= kind.naluLengthSize <= 4)
            && !([0, 0, 1] <= payload) && !([0, 0, 0, 1] <= payload) ==>
              Converted(payload, p, kind) == Err(MuxError.Nal(InvalidLengthSize))
  {
  }

  lemma {:induction false} NothingCoded()
    ensures ByteStream([]) == []
  {
  }

  // ----- when the test for a byte stream misleads -----

  /** With lengths of four bytes, a sample is taken for a byte stream by the length of its first unit alone. */
  lemma {:induction false} TakenForStreamIff(units: seq<seq<byte>>)
    requires units != [] && Fitting(units, 4)
    ensures LooksLikeAnnexB(Prefixed(units, 4)) <==> |units[0]| == 1 || 256 <= |units[0]| < 512
  {
    hide BeBytes, Fitting, Prefixed;
    var n, sample := |units[0]|, Prefixed(units, 4);
    FourByteLengths(units);
    FourBeBytes(n);
    PrefixedStep(units, 4);
    LooksByFour(sample, n / 0x100_0000, n / 0x1_0000 % 256, n / 256 % 256, n % 256);
    LooksByLength(n);
  }

  lemma {:induction false} LooksByFour(sample: seq<byte>, a: nat, b: nat, c: nat, d: nat)
    requires |sample| >= 4 && sample[0] == a && sample[1] == b && sample[2] == c && sample[3] == d
    ensures LooksLikeAnnexB(sample) <==> a == 0 && b == 0 && (c == 1 || (c == 0 && d == 1))
  {
    assert [0, 0, 1] <= sample <==> a == 0 && b == 0 && c == 1;
    assert [0, 0, 0, 1] <= sample <==> a == 0 && b == 0 && c == 0 && d == 1;
  }

  lemma {:induction false} LooksByLength(n: nat)
    ensures (n / 0x100_0000 == 0 && n / 0x1_0000 % 256 == 0 && n / 256 % 256 == 1) <==> 256 <= n < 512
    ensures (n / 0x100_0000 == 0 && n / 0x1_0000 % 256 == 0 && n / 256 % 256 == 0 && n % 256 == 1) <==> n == 1
  {
  }

  lemma {:induction false} FourByteLengths(units: seq<seq<byte>>)
    requires units != [] && Fitting(units, 4)
    ensures |units[0]| < 0x1_0000_0000
  {
    assert Pow256(4) == 256 * Pow256(3) && Pow256(3) == 256 * Pow256(2) && Pow256(2) == 256 * Pow256(1);
    assert Pow256(1) == 256 && units[0] in units;
  }

  ghost predicate AllOneByte(units: seq<seq<byte>>) { forall u <- units :: |u| == 1 }

  /** Such a sample is a byte stream of its units exactly when all of them are of one byte. */
  lemma {:induction false} StreamAlreadyIff(units: seq<seq<byte>>)
    requires Fitting(units, 4)
    ensures Prefixed(units, 4) == ByteStream(NonEmpty(units)) <==> AllOneByte(units)
    decreases |units|
  {
    if units != [] {
      hide BeBytes, ByteStream, NonEmpty, Prefixed, AllOneByte, Fitting;
      var u, rest := units[0], units[1..];
      OneByteStep(units);
      FourByteLengths(units);
      FourBeBytes(|u|);
      PrefixedStep(units, 4);
      StreamAlreadyIff(rest);
      KeptStep(Codec.Avc, units);
      if u == [] {
        EmptyFront(Prefixed(rest, 4), NonEmpty(rest));
      } else {
        SameFront(BeBytes(|u|, 4), [0, 0, 0, 1], u, Prefixed(rest, 4), ByteStream(NonEmpty(rest)));
        OneInFour(|u|);
      }
    }
  }

  lemma {:induction false} OneInFour(n: nat)
    requires n < 0x1_0000_0000
    ensures BeBytes(n, 4) == [0, 0, 0, 1] <==> n == 1
  {
    hide BeBytes;
    FourBeBytes(n);
    var b := BeBytes(n, 4);
    assert b[0] == n / 0x100_0000 && b[1] == n / 0x1_0000 % 256 && b[2] == n / 256 % 256 && b[3] == n % 256;
  }

  lemma {:induction false} EmptyFront(rest: seq<byte>, units: seq<seq<byte>>)
    ensures BeBytes(0, 4) + [] + rest != [] + ByteStream(units)
  {
    hide BeBytes, ByteStream;
    FourBeBytes(0);
    EmptyOrCoded(units);
    var a, b := BeBytes(0, 4) + [] + rest, [] + ByteStream(units);
    assert a[3] == 0 && b == ByteStream(units);
  }

  lemma {:induction false} PrefixedStep(units: seq<seq<byte>>, size: nat)
    requires units != []
    ensures Prefixed(units, size) == BeBytes(|units[0]|, size) + units[0] + Prefixed(units[1..], size)
  {
  }

  lemma {:induction false} OneByteStep(units: seq<seq<byte>>)
    requires units != []
    ensures AllOneByte(units) <==> |units[0]| == 1 && AllOneByte(units[1..])
    ensures Fitting(units, 4) ==> Fitting(units[1..], 4)
  {
    hide Pow256;
    assert units == [units[0]] + units[1..];
  }

  lemma {:induction false} EmptyOrCoded(units: seq<seq<byte>>)
    ensures ByteStream(units) == [] || (|ByteStream(units)| >= 4 && ByteStream(units)[3] == 1)
  {
  }

  lemma {:induction false} SameFront(a: seq<byte>, b: seq<byte>, u: seq<byte>, x: seq<byte>, y: seq<byte>)
    requires |a| == |b|
    ensures a + u + x == b + u + y <==> a == b && x == y
  {
    if a + u + x == b + u + y {
      assert a == (a + u + x)[..|a|] && b == (b + u + y)[..|b|];
      assert x == (a + u + x)[|a + u|..] && y == (b + u + y)[|b + u|..];
    }
  }

  /** A keyframe or other packet with four-byte lengths is sent as the byte stream of its units exactly when its first
      unit is of one byte and so are all others, or when that one has neither one byte nor 256 to 511 and the stream
      fits 64 MiB. */
  lemma {:induction false} AvcConvertsIff(p: PacketRef, sps: seq<seq<byte>>, pps: seq<seq<byte>>, units: seq<seq<byte>>)
    requires units != [] && Fitting(units, 4)
    ensures var sets, first := if p.keyframe then sps + pps else [], |units[0]|;
            Converted(Prefixed(units, 4), p, PayloadKind.Avc(4, sps, pps)) ==
            Ok(ByteStream(sets + NonEmpty(units))) <==>
            (if first == 1 then AllOneByte(units)
             else !(256 <= first < 512) && |ByteStream(NonEmpty(units))| <= 0x400_0000)
  {
    hide Converted, ByteStream, Prefixed, Fitting, NonEmpty;
    var sets := if p.keyframe then sps + pps else [];
    AvcPayload(p, 4, sps, pps, units);
    TakenForStreamIff(units);
    StreamAlreadyIff(units);
    StreamAppend(sets, NonEmpty(units));
    BehindSame(ByteStream(sets), Prefixed(units, 4), ByteStream(NonEmpty(units)));
    OneByteStep(units);
  }

  lemma {:induction false} BehindSame(a: seq<byte>, x: seq<byte>, y: seq<byte>)
    ensures a + x == a + y <==> x == y
  {
    if a + x == a + y { assert x == (a + x)[|a|..] && y == (a + y)[|a|..]; }
  }

  // ----- ADTS frames -----

  /** The header fields of ISO/IEC 13818-7 section 6.2, as a decoder reads them. */
  datatype Adts = Adts(profile: nat, rateIndex: nat, channels: nat, frameLength: nat)

  /** A header without checksum: sync word, MPEG-4, layer 0, buffer fullness of a variable rate, one frame. */
  function ReadAdts(b: seq<byte>): Option<Adts> {
    if |b| < 7 || b[0] != 0xff || b[1] != 0xf1 || b[2] / 2 % 2 != 0 || b[3] / 4 % 16 != 0 || b[5] % 32 != 31
       || b[6] != 0xfc
    then None
    else Some(Adts(b[2] as int / 64, b[2] as int / 4 % 16, b[2] as int % 2 * 4 + b[3] as int / 64,
                   b[3] as int % 4 * 2048 + b[4] as int * 8 + b[5] as int / 32))
  }

  /** Two bits for the object type, from one; other types read as the nearest. */
  function ProfileOf(objectType: byte): nat {
    if objectType == 0 then 0 else if objectType > 4 then 3 else objectType - 1
  }

  /** An AAC packet becomes a frame whose header says the configured profile, rate and channels and how long the frame
      is; refused exactly when that length does not fit 13 bits or the rate has no index. */
  lemma {:induction false} AacPayload(payload: seq<byte>, p: PacketRef, config: AacConfig)
    requires |payload| == p.size
    ensures var r := Converted(payload, p, Aac(config));
            if p.size + 7 >= 8192 then r == Err(FrameTooLarge)
            else if config.sampleRateIndex.None? || config.sampleRateIndex.value > 12 then
              r == Err(UnsupportedSampleRate)
            else
              && r.Ok? && |r.value| == p.size + 7 && r.value[7..] == payload
              && ReadAdts(r.value) ==
                 Some(Adts(ProfileOf(config.objectType), config.sampleRateIndex.value, config.channelConfig % 8,
                           |r.value|))
  {
    var frame := p.size + 7;
    if frame < 8192 && config.sampleRateIndex.Some? && config.sampleRateIndex.value <= 12 {
      var h := AdtsHeader(p.size, config).value;
      var profile, index, channel := Min(Max(config.objectType as int - 1, 0), 3), config.sampleRateIndex.value,
                                     config.channelConfig as int % 8;
      ThirdByte(profile, index, channel);
      LengthBytes(frame, channel % 4);
      assert (h + payload)[7..] == payload;
    }
  }

  lemma {:induction false} ThirdByte(profile: nat, index: nat, channel: nat)
    requires profile < 4 && index < 16 && channel < 8
    ensures var b := profile * 64 + index * 4 + channel / 4;
            b / 64 == profile && b / 4 % 16 == index && b / 2 % 2 == 0 && b % 2 == channel / 4
  {
    var low := index * 4 + channel / 4;
    DivIs(profile * 64 + low, 64, profile, low);
    assert (profile * 64 + low) / 4 == profile * 16 + index;
    assert (profile * 64 + low) / 2 == profile * 32 + index * 2;
  }

  lemma {:induction false} LengthBytes(frame: nat, low: nat)
    requires frame < 8192 && low < 4
    ensures var b := low * 64 + frame / 2048 % 4; b / 64 == low && b / 4 % 16 == 0 && b % 4 == frame / 2048
    ensures frame / 2048 * 2048 + frame / 8 % 256 * 8 + frame % 8 == frame
    ensures (frame % 8 * 32 + 31) / 32 == frame % 8 && (frame % 8 * 32 + 31) % 32 == 31
  {
  }
}
