/** Packetized elementary stream packets (ISO/IEC 13818-1 section 2.4.3.6) and output timestamps. */
module Pes {
  import opened Machine
  import opened TransportStream

  // ----- timestamps in packets -----

  function PtsBytes(prefix: nat, clock: u64): (b: seq<byte>)
    requires prefix < 16
    ensures |b| == 5
  {
    var ts := Masked(clock);
    [prefix * 16 + ts / 0x4000_0000 % 8 * 2 + 1, ts / 0x40_0000 % 256, ts / 0x8000 % 128 * 2 + 1,
     ts / 0x80 % 256, ts % 128 * 2 + 1]
  }

  /** The 33-bit timestamp of section 2.4.3.7. */
  function DecodePts(b: seq<byte>): nat
    requires |b| == 5
  {
    b[0] as int / 2 % 8 * 0x4000_0000 + b[1] as int * 0x40_0000 + b[2] as int / 2 * 0x8000 +
    b[3] as int * 0x80 + b[4] as int / 2
  }

  lemma {:induction false} PtsRoundTrip(prefix: nat, clock: u64)
    requires prefix < 16
    ensures DecodePts(PtsBytes(prefix, clock)) == Masked(clock)
  {
    var ts := Masked(clock);
    SplitClock(ts);
    var b := PtsBytes(prefix, clock);
    assert ts / 0x4000_0000 == 0 && ts / 0x40_0000 < 256;
    assert b[0] / 2 % 8 == 0 && b[2] as int / 2 == ts / 0x8000 % 128 && b[4] as int / 2 == ts % 128;
  }

  lemma {:induction false} SplitClock(ts: nat)
    ensures ts == ts / 0x40_0000 * 0x40_0000 + ts / 0x8000 % 128 * 0x8000 + ts / 0x80 % 256 * 0x80 + ts % 128
  {
    var a, b := ts / 0x80, ts / 0x8000;
    assert ts == a * 0x80 + ts % 128 && a == b * 256 + a % 256 && b / 128 == ts / 0x40_0000;
  }

  // ----- packets -----

  function Be16(x: nat): seq<byte>
    requires x <= U16_MAX
  {
    [x / 256, x % 256]
  }

  function PesPacket(streamId: byte, pts90: u64, dts90: u64, payload: seq<byte>): seq<byte> {
    var hasDts := pts90 != dts90;
    var headerLen := if hasDts then 10 else 5;
    var length := |payload| + 3 + headerLen;
    [0, 0, 1, streamId] + Be16(if length > U16_MAX then 0 else length) +
    [0x80, if hasDts then 0xc0 else 0x80, headerLen] +
    PtsBytes(if hasDts then 3 else 2, pts90) + (if hasDts then PtsBytes(1, dts90) else []) + payload
  }

  datatype PesUnit = PesUnit(streamId: byte, length: nat, pts: nat, dts: nat, payload: seq<byte>)

  /** A receiver: without a decode timestamp the presentation timestamp stands for both. */
  function DecodePes(p: seq<byte>): Option<PesUnit> {
    if |p| < 14 || p[..3] != [0, 0, 1] || p[7] < 0x80 || 9 + p[8] as int > |p| then None
    else if p[7] / 64 == 3 && |p| < 19 then None
    else
      var pts := DecodePts(p[9..14]);
      var dts := if p[7] / 64 == 3 then DecodePts(p[14..19]) else pts;
      Some(PesUnit(p[3], p[4] as int * 256 + p[5] as int, pts, dts, p[9 + p[8] as int..]))
  }

  lemma {:induction false} PesLength(streamId: byte, pts90: u64, dts90: u64, payload: seq<byte>)
    ensures |PesPacket(streamId, pts90, dts90, payload)| == |payload| + if pts90 != dts90 then 19 else 14
  {
  }

  /** Parsing a packet gives back its payload and stream, both clocks modulo the mask, and a length field that
      counts what follows it, or is zero when that does not fit sixteen bits. */
  lemma {:induction false} PesRoundTrip(streamId: byte, pts90: u64, dts90: u64, payload: seq<byte>)
    ensures var p := PesPacket(streamId, pts90, dts90, payload);
            DecodePes(p) == Some(PesUnit(streamId, if |p| - 6 > U16_MAX then 0 else |p| - 6,
                                         Masked(pts90), Masked(dts90), payload))
  {
    var p := PesPacket(streamId, pts90, dts90, payload);
    assert p[..3] == [0, 0, 1];
    PtsRoundTrip(2, pts90);
    PtsRoundTrip(3, pts90);
    PtsRoundTrip(1, dts90);
    if pts90 != dts90 {
      assert p[9..14] == PtsBytes(3, pts90) && p[14..19] == PtsBytes(1, dts90) && p[19..] == payload;
    } else {
      assert p[9..14] == PtsBytes(2, pts90) && p[14..] == payload;
    }
  }

  /** Both clocks come back exactly when they fit the 29 bits the mask keeps. */
  lemma {:induction false} PesClocksSurviveIff(streamId: byte, pts90: u64, dts90: u64, payload: seq<byte>)
    ensures var unit := DecodePes(PesPacket(streamId, pts90, dts90, payload));
            unit.Some? && (unit.value.pts == pts90 && unit.value.dts == dts90 <==>
                           pts90 < CLOCK_MODULUS && dts90 < CLOCK_MODULUS)
  {
    PesRoundTrip(streamId, pts90, dts90, payload);
    MaskedIff(pts90);
    MaskedIff(dts90);
  }

  // ----- output timestamps -----

  datatype Stamp = Stamp(video: bool, pts90: u64, dts90: u64)

  function Sanitized(last: Option<u64>, s: Stamp): Stamp {
    var dts := if last.Some? && s.dts90 <= last.value then SatAdd(last.value, 1) else s.dts90;
    Stamp(s.video, Max(s.pts90, dts), dts)
  }

  class OutputTimestampSanitizer {
    var lastVideoDts90: Option<u64>
    var lastAudioDts90: Option<u64>

    constructor ()
      ensures lastVideoDts90 == None && lastAudioDts90 == None
    {
      lastVideoDts90, lastAudioDts90 := None, None;
    }

    method Sanitize(s: Stamp) returns (r: Stamp)
      modifies this
      ensures r == Sanitized(if s.video then old(lastVideoDts90) else old(lastAudioDts90), s)
      ensures lastVideoDts90 == if s.video then Some(r.dts90) else old(lastVideoDts90)
      ensures lastAudioDts90 == if s.video then old(lastAudioDts90) else Some(r.dts90)
    {
      var slot := if s.video then lastVideoDts90 else lastAudioDts90;
      var dts := s.dts90;
      if slot.Some? && s.dts90 <= slot.value { dts := SatAdd(slot.value, 1); }
      if s.video { lastVideoDts90 := Some(dts); } else { lastAudioDts90 := Some(dts); }
      r := Stamp(s.video, Max(s.pts90, dts), dts);
    }
  }

  /** The decode time last given to each stream. */
  datatype Slots = Slots(video: Option<u64>, audio: Option<u64>)
  {
    function Of(isVideo: bool): Option<u64> { if isVideo then video else audio }

    function Given(s: Stamp): Slots {
      if s.video then Slots(Some(s.dts90), audio) else Slots(video, Some(s.dts90))
    }
  }

  function SanitizedAll(slots: Slots, stamps: seq<Stamp>): seq<Stamp>
    decreases |stamps|
  {
    if stamps == [] then [] else
      var s := Sanitized(slots.Of(stamps[0].video), stamps[0]);
      [s] + SanitizedAll(slots.Given(s), stamps[1..])
  }

  /** Each stream's decode times rise strictly, up to the ceiling of the clock. */
  ghost predicate Rising(slots: Slots, given: seq<Stamp>)
    decreases |given|
  {
    given != [] ==>
      var last, s := slots.Of(given[0].video), given[0];
      (last.Some? ==> last.value < s.dts90 || s.dts90 == U64_MAX) && Rising(slots.Given(s), given[1..])
  }

  /** The output stamps keep their streams, rise, never move back, and present nothing before its decoding. */
  lemma {:induction false} OutputTimesRise(slots: Slots, stamps: seq<Stamp>)
    ensures var given := SanitizedAll(slots, stamps);
            && Rising(slots, given) && |given| == |stamps|
            && forall k :: 0 <= k < |given| ==>
                 && given[k].video == stamps[k].video
                 && stamps[k].dts90 <= given[k].dts90 <= given[k].pts90 && stamps[k].pts90 <= given[k].pts90
    decreases |stamps|
  {
    if stamps != [] {
      var s := Sanitized(slots.Of(stamps[0].video), stamps[0]);
      OutputTimesRise(slots.Given(s), stamps[1..]);
      assert SanitizedAll(slots, stamps)[1..] == SanitizedAll(slots.Given(s), stamps[1..]);
    }
  }

  /** Stamps that already rise below the ceiling are left alone. */
  lemma {:induction false} GoodTimesAreKept(slots: Slots, stamps: seq<Stamp>)
    requires Rising(slots, stamps)
    requires forall s <- stamps :: s.dts90 <= s.pts90 && s.dts90 < U64_MAX
    ensures SanitizedAll(slots, stamps) == stamps
    decreases |stamps|
  {
    if stamps != [] {
      assert stamps[0] in stamps;
      assert Sanitized(slots.Of(stamps[0].video), stamps[0]) == stamps[0];
      GoodTimesAreKept(slots.Given(stamps[0]), stamps[1..]);
      assert stamps == [stamps[0]] + stamps[1..];
    }
  }
}
