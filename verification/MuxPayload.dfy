/** Source packets as elementary-stream payloads, and what conversion may add to them. */
module MuxPayload {
  import opened Machine
  import opened Media
  import PacketReads
  import AnnexB

  datatype AacConfig = AacConfig(objectType: byte, sampleRateIndex: Option<nat>, channelConfig: byte)

  datatype PayloadKind =
    | Avc(naluLengthSize: byte, sps: seq<seq<byte>>, pps: seq<seq<byte>>)
    | Hevc(naluLengthSize: byte, parameterSetsAnnexB: seq<byte>)
    | Aac(config: AacConfig)
    | Ac3
    | Eac3
    | RawAudio

  datatype MuxError =
    | Reading(read: PacketReads.ReadError)
    | Nal(error: AnnexB.NalError)
    | FrameTooLarge
    | UnsupportedSampleRate
    | CompressedExceeded
    | OutputExceeded

  function AdtsHeader(payloadLen: nat, config: AacConfig): (r: Result<seq<byte>, MuxError>)
    ensures r.Ok? ==> |r.value| == 7
  {
    var frame := payloadLen + 7;
    if frame > 0x1fff then Err(FrameTooLarge)
    else if config.sampleRateIndex.None? || config.sampleRateIndex.value > 12 then Err(UnsupportedSampleRate)
    else
      var profile := Min(Max(config.objectType as int - 1, 0), 3);
      var channel := config.channelConfig as int % 8;
      Ok([0xff, 0xf1, profile * 64 + config.sampleRateIndex.value * 4 + channel / 4,
          channel % 4 * 64 + frame / 2048 % 4, frame / 8 % 256, frame % 8 * 32 + 0x1f, 0xfc])
  }

  predicate LooksLikeAnnexB(sample: seq<byte>) {
    [0, 0, 1] <= sample || [0, 0, 0, 1] <= sample
  }

  /** Each parameter set behind a start code. */
  function ParameterSets(sets: seq<seq<byte>>): seq<byte> {
    if sets == [] then [] else AnnexB.START_CODE + sets[0] + ParameterSets(sets[1..])
  }

  function SetBytes(sets: seq<seq<byte>>): nat {
    if sets == [] then 0 else |sets[0]| + 4 + SetBytes(sets[1..])
  }

  lemma {:induction false} ParameterSetsLength(sets: seq<seq<byte>>)
    ensures |ParameterSets(sets)| == SetBytes(sets)
  {
    if sets != [] { ParameterSetsLength(sets[1..]); }
  }

  function Lift(r: Result<seq<byte>, AnnexB.NalError>, prefix: seq<byte>): Result<seq<byte>, MuxError> {
    match r
    case Ok(bytes) => Ok(prefix + bytes)
    case Err(e) => Err(Nal(e))
  }

  function H264ToAnnexB(sample: seq<byte>, size: nat): Result<seq<byte>, AnnexB.NalError> {
    if LooksLikeAnnexB(sample) then Ok(sample) else AnnexB.Appended(AnnexB.Codec.Avc, [], sample, size)
  }

  /** A packet's bytes in the form the stream carries. */
  function Converted(payload: seq<byte>, p: PacketRef, kind: PayloadKind): Result<seq<byte>, MuxError> {
    match kind
    case Avc(size, sps, pps) =>
      Lift(H264ToAnnexB(payload, size), if p.keyframe then ParameterSets(sps) + ParameterSets(pps) else [])
    case Hevc(size, sets) =>
      Lift(AnnexB.Appended(AnnexB.Codec.Hevc, [], payload, size), if p.keyframe then sets else [])
    case Aac(config) =>
      (match AdtsHeader(p.size, config)
       case Ok(header) => Ok(header + payload)
       case Err(e) => Err(e))
    case _ => Ok(payload)
  }

  /** The payload of one packet, read from the source by its positional read of that number. */
  function PacketToPayload(source: PacketReads.MediaSource, operation: nat, p: PacketRef, kind: PayloadKind)
    : Result<seq<byte>, MuxError>
  {
    match source.Answer(operation, p.sourceOffset, p.size)
    case Err(e) => Err(Reading(e))
    case Ok(payload) => Converted(payload, p, kind)
  }

  method ReadPayload(source: PacketReads.MediaSource, p: PacketRef, kind: PayloadKind)
    returns (r: Result<seq<byte>, MuxError>)
    requires |source.bytes| <= U64_MAX
    modifies source
    ensures r == PacketToPayload(source, old(source.readOperations), p, kind)
    ensures r.Ok? ==> source.readOperations == old(source.readOperations) + 1
  {
    hide Converted;
    // a list of one packet is read by a plain positional read
    var payload := source.ReadAt(p.sourceOffset, p.size);
    if payload.Err? { return Err(Reading(payload.error)); }
    return Converted(payload.value, p, kind);
  }

  /** The growth factor and the per-packet extra that the budget check assumes. */
  function Factor(kind: PayloadKind): nat {
    if kind.Avc? || kind.Hevc? then DivCeil(4, Max(kind.naluLengthSize, 1)) else 1
  }

  function PrivateBytes(kind: PayloadKind): nat {
    match kind
    case Avc(_, sps, pps) => SetBytes(sps) + SetBytes(pps)
    case Hevc(_, sets) => |sets|
    case _ => 7
  }

  lemma {:induction false} FactorRange(kind: PayloadKind)
    ensures 1 <= Factor(kind) <= 4
  {
    if kind.Avc? || kind.Hevc? { DivCeilRange(Max(kind.naluLengthSize, 1)); }
  }

  lemma {:induction false} DivCeilRange(n: nat)
    requires n >= 1
    ensures 1 <= DivCeil(4, n) <= 4
  {
    var q, r := (n + 3) / n, (n + 3) % n;
    assert n + 3 == n * q + r;
  }

  lemma {:induction false} AppendedBound(codec: AnnexB.Codec, sample: seq<byte>, size: nat)
    ensures var r := AnnexB.Appended(codec, [], sample, size);
            r.Ok? ==> AnnexB.ValidLengthSize(size) && |r.value| <= AnnexB.Expansion(size, |sample|)
  {
    var r := AnnexB.Appended(codec, [], sample, size);
    if r.Ok? {
      AnnexB.SizedIff(codec, sample, size, 0, 0);
      AnnexB.ExpansionBound(codec, sample, size, 0);
    }
  }

  /** No payload outgrows what the budget check allows its packet. */
  lemma {:induction false} PayloadBound(source: PacketReads.MediaSource, operation: nat, p: PacketRef,
                                        kind: PayloadKind)
    ensures var r := PacketToPayload(source, operation, p, kind);
            r.Ok? ==> |r.value| <= Factor(kind) * p.size + PrivateBytes(kind)
  {
    var answer := source.Answer(operation, p.sourceOffset, p.size);
    if answer.Ok? { ConvertedBound(answer.value, p, kind); }
  }

  lemma {:induction false} ConvertedBound(payload: seq<byte>, p: PacketRef, kind: PayloadKind)
    requires |payload| == p.size
    ensures var r := Converted(payload, p, kind);
            r.Ok? ==> |r.value| <= Factor(kind) * p.size + PrivateBytes(kind)
  {
    if Converted(payload, p, kind).Ok? {
      FactorRange(kind);
      assert 1 * p.size <= Factor(kind) * p.size;
      match kind
      case Avc(size, sps, pps) =>
        ParameterSetsLength(sps);
        ParameterSetsLength(pps);
        AppendedBound(AnnexB.Codec.Avc, payload, size);
      case Hevc(size, sets) =>
        AppendedBound(AnnexB.Codec.Hevc, payload, size);
      case _ =>
    }
  }
}
