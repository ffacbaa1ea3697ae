/** Length-prefixed NAL units to start-code-prefixed ones (Annex B of ITU-T H.264 and H.265). */
module AnnexB {
  import opened Machine

  const MAX_NAL_UNITS := 1_000_000
  const MAX_ANNEX_B_BYTES := 64 * 1024 * 1024

  const START_CODE: seq<byte> := [0, 0, 0, 1]

  datatype NalError =
    InvalidLengthSize | SampleOutOfBounds | TruncatedLengthPrefix | TruncatedNalUnit | ResourceLimit

  datatype ChunkSample = ChunkSample(index: u32, payloadOffset: u64, byteCount: u32)

  datatype AvcNalUnit = AvcNalUnit(
    sampleIndex: u32, samplePayloadOffset: u64, payloadOffset: nat, byteCount: nat, nalUnitType: nat)

  predicate ValidLengthSize(n: nat) { 1 <= n <= 4 }

  // ----- one length-prefixed sample -----

  /** A NAL unit's place in its sample. */
  datatype Nal = Nal(start: nat, length: nat)

  /** The unit whose prefix is at `at`. */
  function NalAt(sample: seq<byte>, size: nat, at: nat): (r: Result<Nal, NalError>)
    requires at < |sample| && ValidLengthSize(size)
    ensures r.Ok? ==> at < r.value.start && r.value.start + r.value.length <= |sample|
  {
    if at + size > |sample| then Err(TruncatedLengthPrefix)
    else
      var nal := Nal(at + size, BeUint(sample[at..at + size]));
      if nal.start + nal.length > |sample| then Err(TruncatedNalUnit) else Ok(nal)
  }

  function End(n: Nal): nat { n.start + n.length }

  /** H.264 conversion drops empty units; H.265 conversion keeps them. */
  datatype Codec = Avc | Hevc

  predicate Kept(codec: Codec, n: Nal) { codec.Hevc? || n.length > 0 }

  /** All units of a sample. */
  function Nals(sample: seq<byte>, size: nat, at: nat): Result<seq<Nal>, NalError>
    requires at <= |sample| && ValidLengthSize(size)
    decreases |sample| - at
  {
    if at == |sample| then Ok([]) else
      match NalAt(sample, size, at)
      case Err(e) => Err(e)
      case Ok(nal) =>
        match Nals(sample, size, End(nal))
        case Err(e) => Err(e)
        case Ok(rest) => Ok([nal] + rest)
  }

  function Unit(sample: seq<byte>, n: Nal): seq<byte>
    requires End(n) <= |sample|
  {
    sample[n.start..End(n)]
  }

  function Coded(codec: Codec, sample: seq<byte>, n: Nal): seq<byte>
    requires End(n) <= |sample|
  {
    if Kept(codec, n) then START_CODE + Unit(sample, n) else []
  }

  /** Start code and bytes of each kept unit: what conversion must produce. */
  function StartCoded(codec: Codec, sample: seq<byte>, nals: seq<Nal>): seq<byte>
    requires forall n <- nals :: End(n) <= |sample|
  {
    if nals == [] then [] else Coded(codec, sample, nals[0]) + StartCoded(codec, sample, nals[1..])
  }

  /** The sizing pass: the output size reached from `sofar`, or the first error in reading order. */
  function Sized(codec: Codec, sample: seq<byte>, size: nat, at: nat, sofar: nat): Result<nat, NalError>
    requires at <= |sample| && ValidLengthSize(size)
    decreases |sample| - at
  {
    if at == |sample| then Ok(sofar) else
      match NalAt(sample, size, at)
      case Err(e) => Err(e)
      case Ok(nal) =>
        if !Kept(codec, nal) then Sized(codec, sample, size, End(nal), sofar)
        else if sofar + 4 + nal.length > MAX_ANNEX_B_BYTES then Err(ResourceLimit)
        else Sized(codec, sample, size, End(nal), sofar + 4 + nal.length)
  }

  lemma {:induction false} NalsInside(sample: seq<byte>, size: nat, at: nat)
    requires at <= |sample| && ValidLengthSize(size)
    ensures Nals(sample, size, at).Ok? ==>
            forall n <- Nals(sample, size, at).value :: at < n.start && End(n) <= |sample|
    decreases |sample| - at
  {
    if at < |sample| && NalAt(sample, size, at).Ok? {
      NalsInside(sample, size, End(NalAt(sample, size, at).value));
    }
  }

  /** Sizing succeeds exactly when the sample parses and its output fits, and then it gives that output's size. */
  lemma {:induction false} SizedIff(codec: Codec, sample: seq<byte>, size: nat, at: nat, sofar: nat)
    requires at <= |sample| && ValidLengthSize(size) && sofar <= MAX_ANNEX_B_BYTES
    ensures var nals, r := Nals(sample, size, at), Sized(codec, sample, size, at, sofar);
            && (nals.Ok? ==> forall n <- nals.value :: End(n) <= |sample|)
            && (r.Ok? <==> nals.Ok? && sofar + |StartCoded(codec, sample, nals.value)| <= MAX_ANNEX_B_BYTES)
            && (r.Ok? ==> r.value == sofar + |StartCoded(codec, sample, nals.value)|)
    decreases |sample| - at
  {
    NalsInside(sample, size, at);
    if at < |sample| && NalAt(sample, size, at).Ok? {
      var nal := NalAt(sample, size, at).value;
      var more := if Kept(codec, nal) then sofar + 4 + nal.length else sofar;
      NalsInside(sample, size, End(nal));
      if more <= MAX_ANNEX_B_BYTES { SizedIff(codec, sample, size, End(nal), more); }
    }
  }

  function Expansion(size: nat, length: nat): nat
    requires ValidLengthSize(size)
  {
    DivCeil(4, size) * length
  }

  lemma {:induction false} PrefixBecomesStartCode(size: nat, length: nat, coded: nat, rest: nat, codedRest: nat,
                                                  all: nat)
    requires ValidLengthSize(size) && coded <= 4 + length && codedRest <= Expansion(size, rest)
    requires all == size + length + rest
    ensures coded + codedRest <= Expansion(size, all)
  {
    if size == 1 { assert DivCeil(4, size) == 4; }
    else if size == 4 { assert DivCeil(4, size) == 1; }
    else { assert DivCeil(4, size) == 2; }
  }

  lemma {:induction false} NalsStep(sample: seq<byte>, size: nat, at: nat)
    requires at < |sample| && ValidLengthSize(size) && Nals(sample, size, at).Ok?
    ensures NalAt(sample, size, at).Ok?
    ensures var nal := NalAt(sample, size, at).value;
            && nal.start == at + size && End(nal) <= |sample| && Nals(sample, size, End(nal)).Ok?
            && Nals(sample, size, at).value == [nal] + Nals(sample, size, End(nal)).value
  {
  }

  lemma {:induction false} StartCodedStep(codec: Codec, sample: seq<byte>, n: Nal, rest: seq<Nal>)
    requires End(n) <= |sample| && forall m <- rest :: End(m) <= |sample|
    ensures |StartCoded(codec, sample, [n] + rest)| <= 4 + n.length + |StartCoded(codec, sample, rest)|
    ensures StartCoded(codec, sample, [n] + rest) == Coded(codec, sample, n) + StartCoded(codec, sample, rest)
    ensures |Coded(codec, sample, n)| <= 4 + n.length
  {
    assert ([n] + rest)[1..] == rest;
  }

  /** Conversion grows a sample by at most 4 / `size`, rounded up: each prefix of `size` bytes becomes four. */
  lemma {:induction false} ExpansionBound(codec: Codec, sample: seq<byte>, size: nat, at: nat)
    requires at <= |sample| && ValidLengthSize(size)
    requires Nals(sample, size, at).Ok?
    ensures var nals := Nals(sample, size, at).value;
            && (forall n <- nals :: End(n) <= |sample|)
            && |StartCoded(codec, sample, nals)| <= Expansion(size, |sample| - at)
    decreases |sample| - at
  {
    if at == |sample| {
      NothingExpands(codec, sample, size);
    } else {
      hide Nals, NalAt, StartCoded, Coded, Expansion, ValidLengthSize;
      NalsInside(sample, size, at);
      NalsStep(sample, size, at);
      var nal := NalAt(sample, size, at).value;
      var rest := Nals(sample, size, End(nal)).value;
      ExpansionBound(codec, sample, size, End(nal));
      StartCodedStep(codec, sample, nal, rest);
      PrefixBecomesStartCode(size, nal.length, |Coded(codec, sample, nal)|, |sample| - End(nal),
                             |StartCoded(codec, sample, rest)|, |sample| - at);
    }
  }

  lemma {:induction false} NothingExpands(codec: Codec, sample: seq<byte>, size: nat)
    requires ValidLengthSize(size)
    ensures Nals(sample, size, |sample|) == Ok([]) && |StartCoded(codec, sample, [])| <= Expansion(size, 0)
  {
  }

  method SizePass(codec: Codec, sample: seq<byte>, size: nat, sofar: nat) returns (r: Result<nat, NalError>)
    requires ValidLengthSize(size)
    ensures r == Sized(codec, sample, size, 0, sofar)
  {
    var offset: nat, total: nat := 0, sofar;
    while offset < |sample|
      invariant offset <= |sample|
      invariant Sized(codec, sample, size, offset, total) == Sized(codec, sample, size, 0, sofar)
    {
      var nal := NalAt(sample, size, offset);
      if nal.Err? { return Err(nal.error); }
      if Kept(codec, nal.value) {
        total := total + 4 + nal.value.length;
        if total > MAX_ANNEX_B_BYTES { return Err(ResourceLimit); }
      }
      offset := End(nal.value);
    }
    return Ok(total);
  }

  /** The emitting pass of a sample the sizing pass accepted. */
  method EmitPass(codec: Codec, sample: seq<byte>, size: nat, out: seq<byte>) returns (r: seq<byte>)
    requires ValidLengthSize(size) && Nals(sample, size, 0).Ok?
    ensures forall n <- Nals(sample, size, 0).value :: End(n) <= |sample|
    ensures r == out + StartCoded(codec, sample, Nals(sample, size, 0).value)
  {
    NalsInside(sample, size, 0);
    ghost var todo := Nals(sample, size, 0).value;
    ghost var all := out + StartCoded(codec, sample, todo);
    var offset: nat := 0;
    r := out;
    while offset < |sample|
      invariant offset <= |sample| && Nals(sample, size, offset) == Ok(todo)
      invariant forall n <- todo :: End(n) <= |sample|
      invariant r + StartCoded(codec, sample, todo) == all
    {
      var nal := NalAt(sample, size, offset).value;
      assert todo[0] == nal && todo[1..] == Nals(sample, size, End(nal)).value;
      todo := todo[1..];
      Regroup(r, Coded(codec, sample, nal), StartCoded(codec, sample, todo));
      if Kept(codec, nal) {
        r := r + (START_CODE + Unit(sample, nal));
      } else {
        assert r + [] == r;
      }
      offset := End(nal);
    }
    assert r + [] == r;
  }

  /** Sizes, then appends; nothing is appended unless everything fits. */
  method AppendAnnexB(codec: Codec, out: seq<byte>, sample: seq<byte>,
                      size: nat) returns (r: Result<seq<byte>, NalError>)
    requires |out| <= MAX_ANNEX_B_BYTES
    ensures r == Appended(codec, out, sample, size)
    ensures r.Ok? ==> |r.value| <= MAX_ANNEX_B_BYTES
  {
    if !(1 <= size <= 4) { return Err(InvalidLengthSize); }
    SizedIff(codec, sample, size, 0, |out|);
    var sized := SizePass(codec, sample, size, |out|);
    if sized.Err? { return Err(sized.error); }
    var bytes := EmitPass(codec, sample, size, out);
    return Ok(bytes);
  }

  function Appended(codec: Codec, out: seq<byte>, sample: seq<byte>, size: nat): Result<seq<byte>, NalError> {
    if !ValidLengthSize(size) then Err(InvalidLengthSize) else
      match Sized(codec, sample, size, 0, |out|)
      case Err(e) => Err(e)
      case Ok(_) =>
        if |out| > MAX_ANNEX_B_BYTES then Err(ResourceLimit) else
        SizedIff(codec, sample, size, 0, |out|);
        Ok(out + StartCoded(codec, sample, Nals(sample, size, 0).value))
  }

  /** The one-pass conversion: the limit is checked as each unit is appended. */
  method AppendHevcAnnexB(out: seq<byte>, sample: seq<byte>, size: nat) returns (r: Result<seq<byte>, NalError>)
    requires ValidLengthSize(size) && |out| <= MAX_ANNEX_B_BYTES
    ensures r == Appended(Hevc, out, sample, size)
  {
    SizedIff(Hevc, sample, size, 0, |out|);
    NalsInside(sample, size, 0);
    ghost var parsed := Nals(sample, size, 0);
    ghost var todo := if parsed.Ok? then parsed.value else [];
    ghost var all := if parsed.Ok? then out + StartCoded(Hevc, sample, todo) else [];
    var offset: nat, bytes := 0, out;
    while offset < |sample|
      invariant offset <= |sample|
      invariant Sized(Hevc, sample, size, offset, |bytes|) == Sized(Hevc, sample, size, 0, |out|)
      invariant parsed.Ok? ==> Nals(sample, size, offset) == Ok(todo) && (forall n <- todo :: End(n) <= |sample|)
      invariant parsed.Ok? ==> bytes + StartCoded(Hevc, sample, todo) == all
    {
      var nal := NalAt(sample, size, offset);
      if nal.Err? { return Err(nal.error); }
      if |bytes| + 4 + nal.value.length > MAX_ANNEX_B_BYTES { return Err(ResourceLimit); }
      var coded := START_CODE + Unit(sample, nal.value);
      if parsed.Ok? {
        assert todo[0] == nal.value && todo[1..] == Nals(sample, size, End(nal.value)).value;
        todo := todo[1..];
        Regroup(bytes, coded, StartCoded(Hevc, sample, todo));
      }
      bytes := bytes + coded;
      offset := End(nal.value);
    }
    assert bytes + [] == bytes;
    return Ok(bytes);
  }

  // ----- chunks of samples -----

  function Slice(payload: seq<byte>, s: ChunkSample): Result<seq<byte>, NalError> {
    if s.payloadOffset + s.byteCount > |payload| then Err(SampleOutOfBounds)
    else Ok(payload[s.payloadOffset..s.payloadOffset + s.byteCount])
  }

  function ChunkSized(codec: Codec, payload: seq<byte>, samples: seq<ChunkSample>, size: nat,
                      sofar: nat): Result<nat, NalError>
    requires ValidLengthSize(size)
  {
    if samples == [] then Ok(sofar) else
      match Slice(payload, samples[0])
      case Err(e) => Err(e)
      case Ok(bytes) =>
        match Sized(codec, bytes, size, 0, sofar)
        case Err(e) => Err(e)
        case Ok(more) => ChunkSized(codec, payload, samples[1..], size, more)
  }

  /** Every sample lies in the payload and parses. */
  ghost predicate Parses(payload: seq<byte>, samples: seq<ChunkSample>, size: nat)
    requires ValidLengthSize(size)
  {
    forall s <- samples :: Slice(payload, s).Ok? && Nals(Slice(payload, s).value, size, 0).Ok?
  }

  /** The start-coded units of all samples, in order. */
  ghost function ChunkStartCoded(codec: Codec, payload: seq<byte>, samples: seq<ChunkSample>, size: nat): seq<byte>
    requires ValidLengthSize(size) && Parses(payload, samples, size)
  {
    if samples == [] then [] else
      var s := samples[0];
      assert s in samples;
      var bytes := Slice(payload, s).value;
      NalsInside(bytes, size, 0);
      StartCoded(codec, bytes, Nals(bytes, size, 0).value) + ChunkStartCoded(codec, payload, samples[1..], size)
  }

  lemma {:induction false} ChunkSizedIff(codec: Codec, payload: seq<byte>, samples: seq<ChunkSample>, size: nat,
                                         sofar: nat)
    requires ValidLengthSize(size) && sofar <= MAX_ANNEX_B_BYTES
    ensures var r := ChunkSized(codec, payload, samples, size, sofar);
            && (r.Ok? <==> Parses(payload, samples, size) &&
                           sofar + |ChunkStartCoded(codec, payload, samples, size)| <= MAX_ANNEX_B_BYTES)
            && (r.Ok? ==> r.value == sofar + |ChunkStartCoded(codec, payload, samples, size)|)
  {
    if samples != [] {
      var s, rest := samples[0], samples[1..];
      assert samples == [s] + rest;
      if Slice(payload, s).Ok? {
        var bytes := Slice(payload, s).value;
        SizedIff(codec, bytes, size, 0, sofar);
        var sized := Sized(codec, bytes, size, 0, sofar);
        if sized.Ok? {
          ChunkSizedIff(codec, payload, rest, size, sized.value);
        }
      }
    }
  }

  /** Two passes over the samples: the second cannot fail once the first has succeeded. */
  method AvcChunkToAnnexB(payload: seq<byte>, samples: seq<ChunkSample>,
                          size: nat) returns (r: Result<seq<byte>, NalError>)
    ensures !ValidLengthSize(size) ==> r == Err(InvalidLengthSize)
    ensures ValidLengthSize(size) ==>
              match ChunkSized(Avc, payload, samples, size, 0)
              case Err(e) => r == Err(e)
              case Ok(total) => && Parses(payload, samples, size)
                                && r == Ok(ChunkStartCoded(Avc, payload, samples, size))
                                && |r.value| == total <= MAX_ANNEX_B_BYTES
  {
    if !(1 <= size <= 4) { return Err(InvalidLengthSize); }
    ChunkSizedIff(Avc, payload, samples, size, 0);
    var total: nat := 0;
    for i := 0 to |samples|
      invariant ChunkSized(Avc, payload, samples[i..], size, total) == ChunkSized(Avc, payload, samples, size, 0)
    {
      assert samples[i..][1..] == samples[i + 1..];
      var bytes := Slice(payload, samples[i]);
      if bytes.Err? { return Err(bytes.error); }
      var sized := SizePass(Avc, bytes.value, size, total);
      if sized.Err? { return Err(sized.error); }
      total := sized.value;
    }
    assert samples[|samples|..] == [];
    var out := [];
    for i := 0 to |samples|
      invariant Parses(payload, samples[i..], size)
      invariant out + ChunkStartCoded(Avc, payload, samples[i..], size) == ChunkStartCoded(Avc, payload, samples, size)
    {
      assert samples[i..][1..] == samples[i + 1..] && samples[i] in samples[i..];
      ghost var rest := ChunkStartCoded(Avc, payload, samples[i + 1..], size);
      SizedIff(Avc, Slice(payload, samples[i]).value, size, 0, |out|);
      var appended := AppendAnnexB(Avc, out, Slice(payload, samples[i]).value, size);
      Regroup(out, StartCoded(Avc, Slice(payload, samples[i]).value,
                              Nals(Slice(payload, samples[i]).value, size, 0).value), rest);
      out := appended.value;
    }
    assert samples[|samples|..] == [] && out + [] == out;
    return Ok(out);
  }

  /** One pass: the limit is checked as units are appended. */
  method HevcChunkToAnnexB(payload: seq<byte>, samples: seq<ChunkSample>,
                           size: nat) returns (r: Result<seq<byte>, NalError>)
    ensures !ValidLengthSize(size) ==> r == Err(InvalidLengthSize)
    ensures ValidLengthSize(size) ==>
              (r.Ok? <==> && Parses(payload, samples, size)
                          && |ChunkStartCoded(Hevc, payload, samples, size)| <= MAX_ANNEX_B_BYTES)
    ensures r.Ok? ==> r.value == ChunkStartCoded(Hevc, payload, samples, size)
  {
    if !(1 <= size <= 4) { return Err(InvalidLengthSize); }
    ChunkSizedIff(Hevc, payload, samples, size, 0);
    var out := [];
    for i := 0 to |samples|
      invariant |out| <= MAX_ANNEX_B_BYTES
      invariant ChunkSized(Hevc, payload, samples[i..], size, |out|) == ChunkSized(Hevc, payload, samples, size, 0)
      invariant Parses(payload, samples, size) ==>
                  Parses(payload, samples[i..], size) &&
                  out + ChunkStartCoded(Hevc, payload, samples[i..], size) ==
                      ChunkStartCoded(Hevc, payload, samples, size)
    {
      assert samples[i..][1..] == samples[i + 1..] && samples[i] in samples[i..];
      var bytes := Slice(payload, samples[i]);
      if bytes.Err? { return Err(TruncatedNalUnit); }
      SizedIff(Hevc, bytes.value, size, 0, |out|);
      var appended := AppendHevcAnnexB(out, bytes.value, size);
      if appended.Err? { return appended; }
      ghost var units := StartCoded(Hevc, bytes.value, Nals(bytes.value, size, 0).value);
      if Parses(payload, samples, size) {
        Regroup(out, units, ChunkStartCoded(Hevc, payload, samples[i + 1..], size));
      }
      out := appended.value;
    }
    assert samples[|samples|..] == [] && out + [] == out;
    return Ok(out);
  }

  // ----- unit metadata -----

  /** How sample `s` lists one of its units. */
  function Listed(payload: seq<byte>, s: ChunkSample, n: Nal): AvcNalUnit
    requires s.payloadOffset + End(n) <= |payload| && n.length > 0
  {
    AvcNalUnit(s.index, s.payloadOffset, s.payloadOffset + n.start, n.length,
               payload[s.payloadOffset + n.start] as int % 32)
  }

  function ListedIfAny(payload: seq<byte>, s: ChunkSample, n: Nal): seq<AvcNalUnit>
    requires s.payloadOffset + End(n) <= |payload|
  {
    if n.length > 0 then [Listed(payload, s, n)] else []
  }

  /** The non-empty units of one sample. */
  function SampleUnits(payload: seq<byte>, s: ChunkSample, nals: seq<Nal>): seq<AvcNalUnit>
    requires forall n <- nals :: s.payloadOffset + End(n) <= |payload|
  {
    if nals == [] then [] else ListedIfAny(payload, s, nals[0]) + SampleUnits(payload, s, nals[1..])
  }

  lemma {:induction false} UnitsInside(payload: seq<byte>, s: ChunkSample, size: nat)
    requires ValidLengthSize(size) && Slice(payload, s).Ok? && Nals(Slice(payload, s).value, size, 0).Ok?
    ensures forall n <- Nals(Slice(payload, s).value, size, 0).value ::
              End(n) <= |Slice(payload, s).value| && s.payloadOffset + End(n) <= |payload|
  {
    NalsInside(Slice(payload, s).value, size, 0);
  }

  /** The units of all samples, in order. */
  ghost function ChunkUnits(payload: seq<byte>, samples: seq<ChunkSample>, size: nat): seq<AvcNalUnit>
    requires ValidLengthSize(size) && Parses(payload, samples, size)
  {
    if samples == [] then [] else
      assert samples[0] in samples;
      UnitsInside(payload, samples[0], size);
      SampleUnits(payload, samples[0], Nals(Slice(payload, samples[0]).value, size, 0).value) +
      ChunkUnits(payload, samples[1..], size)
  }

  /** Start code and byte range of each listed unit. */
  function UnitsStartCoded(payload: seq<byte>, units: seq<AvcNalUnit>): seq<byte>
    requires forall u <- units :: u.payloadOffset + u.byteCount <= |payload|
  {
    if units == [] then [] else
      var u := units[0];
      assert u in units && u.byteCount >= 0;
      START_CODE + payload[u.payloadOffset..u.payloadOffset + u.byteCount] + UnitsStartCoded(payload, units[1..])
  }

  lemma {:induction false} UnitsStartCodedAppend(payload: seq<byte>, a: seq<AvcNalUnit>, b: seq<AvcNalUnit>)
    requires forall u <- a + b :: u.payloadOffset + u.byteCount <= |payload|
    ensures forall u <- a :: u in a + b
    ensures forall u <- b :: u in a + b
    ensures UnitsStartCoded(payload, a + b) == UnitsStartCoded(payload, a) + UnitsStartCoded(payload, b)
  {
    if a == [] {
      assert a + b == b;
    } else {
      assert (a + b)[1..] == a[1..] + b;
      UnitsStartCodedAppend(payload, a[1..], b);
    }
  }

  lemma {:induction false} ListedIsCoded(payload: seq<byte>, s: ChunkSample, n: Nal)
    requires Slice(payload, s).Ok? && End(n) <= |Slice(payload, s).value|
    ensures forall u <- ListedIfAny(payload, s, n) :: u.payloadOffset + u.byteCount <= |payload|
    ensures UnitsStartCoded(payload, ListedIfAny(payload, s, n)) == Coded(Avc, Slice(payload, s).value, n)
  {
    if n.length > 0 {
      SliceOfSlice(payload, s.payloadOffset, s.payloadOffset + s.byteCount, n.start, End(n));
      assert UnitsStartCoded(payload, [Listed(payload, s, n)][1..]) == [];
    }
  }

  lemma {:induction false} SampleUnitsAreCoded(payload: seq<byte>, s: ChunkSample, nals: seq<Nal>)
    requires Slice(payload, s).Ok?
    requires forall n <- nals :: End(n) <= |Slice(payload, s).value|
    ensures forall u <- SampleUnits(payload, s, nals) :: u.payloadOffset + u.byteCount <= |payload|
    ensures UnitsStartCoded(payload, SampleUnits(payload, s, nals)) == StartCoded(Avc, Slice(payload, s).value, nals)
  {
    if nals != [] {
      SampleUnitsAreCoded(payload, s, nals[1..]);
      ListedIsCoded(payload, s, nals[0]);
      UnitsStartCodedAppend(payload, ListedIfAny(payload, s, nals[0]), SampleUnits(payload, s, nals[1..]));
    }
  }

  /** Conversion is the start-coded concatenation of exactly the listed units. */
  lemma {:induction false} ConversionIsListedUnits(payload: seq<byte>, samples: seq<ChunkSample>, size: nat)
    requires ValidLengthSize(size) && Parses(payload, samples, size)
    ensures var units := ChunkUnits(payload, samples, size);
            && (forall u <- units :: u.payloadOffset + u.byteCount <= |payload|)
            && UnitsStartCoded(payload, units) == ChunkStartCoded(Avc, payload, samples, size)
  {
    if samples != [] {
      var s := samples[0];
      assert s in samples;
      var nals := Nals(Slice(payload, s).value, size, 0).value;
      UnitsInside(payload, s, size);
      SampleUnitsAreCoded(payload, s, nals);
      ConversionIsListedUnits(payload, samples[1..], size);
      UnitsStartCodedAppend(payload, SampleUnits(payload, s, nals), ChunkUnits(payload, samples[1..], size));
    }
  }

  // ----- what the listing reads before it meets an error -----

  /** The units of a sample that read before its end, or before what does not parse. */
  function NalsBefore(sample: seq<byte>, size: nat, at: nat): (r: seq<Nal>)
    requires at <= |sample| && ValidLengthSize(size)
    ensures forall n <- r :: End(n) <= |sample|
    decreases |sample| - at
  {
    if at == |sample| || NalAt(sample, size, at).Err? then [] else
      var nal := NalAt(sample, size, at).value;
      [nal] + NalsBefore(sample, size, End(nal))
  }

  lemma {:induction false} AllBefore(sample: seq<byte>, size: nat, at: nat)
    requires at <= |sample| && ValidLengthSize(size) && Nals(sample, size, at).Ok?
    ensures NalsBefore(sample, size, at) == Nals(sample, size, at).value
    decreases |sample| - at
  {
    if at < |sample| { AllBefore(sample, size, End(NalAt(sample, size, at).value)); }
  }

  /** The non-empty units of one sample that read. */
  function UnitsOf(payload: seq<byte>, s: ChunkSample, size: nat, at: nat): seq<AvcNalUnit>
    requires ValidLengthSize(size) && Slice(payload, s).Ok? && at <= |Slice(payload, s).value|
  {
    SampleUnits(payload, s, NalsBefore(Slice(payload, s).value, size, at))
  }

  /** The first thing in a chunk that does not parse. */
  function FirstBroken(payload: seq<byte>, samples: seq<ChunkSample>, size: nat): Option<NalError>
    requires ValidLengthSize(size)
  {
    if samples == [] then None else
      match Slice(payload, samples[0])
      case Err(e) => Some(e)
      case Ok(bytes) =>
        match Nals(bytes, size, 0)
        case Err(e) => Some(e)
        case Ok(_) => FirstBroken(payload, samples[1..], size)
  }

  /** The non-empty units in front of it. */
  function UnitsBefore(payload: seq<byte>, samples: seq<ChunkSample>, size: nat): seq<AvcNalUnit>
    requires ValidLengthSize(size)
  {
    if samples == [] || Slice(payload, samples[0]).Err? then [] else
      UnitsOf(payload, samples[0], size, 0) +
      if Nals(Slice(payload, samples[0]).value, size, 0).Err? then [] else UnitsBefore(payload, samples[1..], size)
  }

  /** Too many units before the first error count more than the error. */
  function Verdict(units: seq<AvcNalUnit>, broken: Option<NalError>): Result<seq<AvcNalUnit>, NalError> {
    if |units| > MAX_NAL_UNITS then Err(ResourceLimit)
    else match broken case Some(e) => Err(e) case None => Ok(units)
  }

  /** A chunk parses when nothing in it is broken, and then the units in front of nothing are all units. */
  lemma {:induction false} ParsesIff(payload: seq<byte>, samples: seq<ChunkSample>, size: nat)
    requires ValidLengthSize(size)
    ensures Parses(payload, samples, size) <==> FirstBroken(payload, samples, size).None?
    ensures Parses(payload, samples, size) ==> UnitsBefore(payload, samples, size) == ChunkUnits(payload, samples, size)
  {
    if samples != [] {
      hide Nals, SampleUnits, NalsBefore;
      var s, rest := samples[0], samples[1..];
      assert samples == [s] + rest && s in samples;
      if Slice(payload, s).Ok? && Nals(Slice(payload, s).value, size, 0).Ok? {
        UnitsInside(payload, s, size);
        AllBefore(Slice(payload, s).value, size, 0);
        ParsesIff(payload, rest, size);
      }
    }
  }

  /** Lists every non-empty unit, up to a million over the whole chunk. When something does not parse, the error is that
      of the first such thing, unless more than a million units come before it. */
  method ParseAvcChunkNalus(payload: seq<byte>, samples: seq<ChunkSample>,
                            size: nat) returns (r: Result<seq<AvcNalUnit>, NalError>)
    ensures !ValidLengthSize(size) ==> r == Err(InvalidLengthSize)
    ensures ValidLengthSize(size) ==>
              r == Verdict(UnitsBefore(payload, samples, size), FirstBroken(payload, samples, size))
    ensures ValidLengthSize(size) && !Parses(payload, samples, size) ==> r.Err?
    ensures ValidLengthSize(size) && Parses(payload, samples, size) ==>
              r == if |ChunkUnits(payload, samples, size)| <= 1_000_000 then Ok(ChunkUnits(payload, samples, size))
                   else Err(ResourceLimit)
  {
    hide UnitsBefore, FirstBroken, ListedFrom, Parses;
    if !(1 <= size <= 4) { return Err(InvalidLengthSize); }
    var units := [];
    ParsesIff(payload, samples, size);
    ghost var all, broken := UnitsBefore(payload, samples, size), FirstBroken(payload, samples, size);
    assert samples[0..] == samples && [] + all == all;
    for i := 0 to |samples|
      invariant |units| <= MAX_NAL_UNITS
      invariant Verdict(all, broken) ==
                Verdict(units + UnitsBefore(payload, samples[i..], size), FirstBroken(payload, samples[i..], size))
    {
      assert samples[i..][0] == samples[i] && samples[i..][1..] == samples[i + 1..];
      ListingStep(units, payload, samples[i..], size);
      var bytes := Slice(payload, samples[i]);
      if bytes.Err? { return Err(bytes.error); }
      var appended := AppendAvcNalus(units, payload, samples[i], bytes.value, size);
      if appended.Err? { return appended; }
      units := appended.value;
    }
    NothingListed(payload, samples[|samples|..], size);
    assert units + [] == units;
    return Ok(units);
  }

  lemma {:induction false} NothingListed(payload: seq<byte>, samples: seq<ChunkSample>, size: nat)
    requires ValidLengthSize(size) && samples == []
    ensures UnitsBefore(payload, samples, size) == [] && FirstBroken(payload, samples, size) == None
  {
  }

  /** The first sample decides, or the rest goes on behind its units. */
  lemma {:induction false} ListingStep(units: seq<AvcNalUnit>, payload: seq<byte>, samples: seq<ChunkSample>, size: nat)
    requires ValidLengthSize(size) && samples != [] && |units| <= MAX_NAL_UNITS
    ensures var s := samples[0];
            var r := Verdict(units + UnitsBefore(payload, samples, size), FirstBroken(payload, samples, size));
            match Slice(payload, s)
            case Err(e) => r == Err(e)
            case Ok(_) =>
              match ListedFrom(units, payload, s, size, 0)
              case Err(e) => r == Err(e)
              case Ok(more) =>
                && |more| <= MAX_NAL_UNITS
                && r == Verdict(more + UnitsBefore(payload, samples[1..], size),
                                FirstBroken(payload, samples[1..], size))
  {
    var s := samples[0];
    if Slice(payload, s).Ok? {
      hide Nals, ListedFrom, UnitsOf;
      ListedFromIff(units, payload, s, size, 0);
      Regroup(units, UnitsOf(payload, s, size, 0), UnitsBefore(payload, samples[1..], size));
      assert UnitsOf(payload, s, size, 0) + [] == UnitsOf(payload, s, size, 0);
    } else {
      assert units + [] == units;
    }
  }

  /** The listing of one sample after `units`, in reading order, with the first error met. */
  function ListedFrom(units: seq<AvcNalUnit>, payload: seq<byte>, s: ChunkSample, size: nat,
                      at: nat): Result<seq<AvcNalUnit>, NalError>
    requires ValidLengthSize(size) && Slice(payload, s).Ok? && at <= |Slice(payload, s).value|
    decreases |Slice(payload, s).value| - at
  {
    var sample := Slice(payload, s).value;
    if at == |sample| then Ok(units) else
      match NalAt(sample, size, at)
      case Err(e) => Err(e)
      case Ok(nal) =>
        if nal.length > 0 && |units| >= MAX_NAL_UNITS then Err(ResourceLimit)
        else ListedFrom(units + ListedIfAny(payload, s, nal), payload, s, size, End(nal))
  }

  /** From any offset the listing gives the units that read, unless they are too many or something does not parse. */
  lemma {:induction false} ListedFromIff(units: seq<AvcNalUnit>, payload: seq<byte>, s: ChunkSample, size: nat, at: nat)
    requires ValidLengthSize(size) && Slice(payload, s).Ok? && at <= |Slice(payload, s).value|
    requires |units| <= MAX_NAL_UNITS
    ensures ListedFrom(units, payload, s, size, at) ==
            Verdict(units + UnitsOf(payload, s, size, at),
                    match Nals(Slice(payload, s).value, size, at) case Err(e) => Some(e) case Ok(_) => None)
    decreases |Slice(payload, s).value| - at
  {
    var sample := Slice(payload, s).value;
    if at == |sample| || NalAt(sample, size, at).Err? {
      assert units + [] == units;
    } else {
      hide NalAt, Listed;
      var nal := NalAt(sample, size, at).value;
      var one, rest := ListedIfAny(payload, s, nal), UnitsOf(payload, s, size, End(nal));
      assert UnitsOf(payload, s, size, at) == one + rest;
      Regroup(units, one, rest);
      if nal.length == 0 || |units| < MAX_NAL_UNITS { ListedFromIff(units + one, payload, s, size, End(nal)); }
    }
  }

  method AppendAvcNalus(units: seq<AvcNalUnit>, payload: seq<byte>, s: ChunkSample, sample: seq<byte>, size: nat)
    returns (r: Result<seq<AvcNalUnit>, NalError>)
    requires ValidLengthSize(size) && Slice(payload, s) == Ok(sample)
    ensures r == ListedFrom(units, payload, s, size, 0)
  {
    var offset: nat, out := 0, units;
    while offset < |sample|
      invariant offset <= |sample|
      invariant ListedFrom(out, payload, s, size, offset) == ListedFrom(units, payload, s, size, 0)
    {
      var nal := NalAt(sample, size, offset);
      if nal.Err? { return Err(nal.error); }
      if nal.value.length > 0 {
        if |out| >= MAX_NAL_UNITS { return Err(ResourceLimit); }
        out := out + [AvcNalUnit(s.index, s.payloadOffset, s.payloadOffset + nal.value.start, nal.value.length,
                                 sample[nal.value.start] as int % 32)];
      } else {
        assert out + [] == out;
      }
      offset := End(nal.value);
    }
    return Ok(out);
  }
}
