/** Fragment samples from packets: rescaled durations, and composition offsets moved up until none is negative. */
module Fmp4Samples {
  import opened Machine
  import opened Media
  import opened Fmp4Parse
  import opened Fmp4Writer
  import opened Fmp4RoundTrip

  const SYNC := 0x0200_0000
  const NOT_SYNC := 0x0101_0000
  const I32_MIN := -0x8000_0000

  function Quotient(x: nat, d: nat): nat
    requires d >= 1
  {
    x / d
  }

  /** The product is formed in 128 bits; only the result is clamped. */
  function RescaleTime(units: u64, from: u32, to: u32): u64 {
    Min(Quotient(units * to, if from == 0 then 1 else from), U64_MAX)
  }

  /** The whole ticks of the new clock, the last of them begun, or the largest number that 64 bits hold. */
  ghost predicate WholeTicks(units: u64, from: u32, to: u32, r: nat) {
    var d := Max(from, 1);
    if units * to >= 0x1_0000_0000_0000_0000 * d then r == 0xffff_ffff_ffff_ffff
    else r * d <= units * to < (r + 1) * d
  }

  lemma {:induction false} RescaledTicks(units: u64, from: u32, to: u32)
    ensures WholeTicks(units, from, to, RescaleTime(units, from, to))
  {
    hide Quotient;
    QuotientTicks(units * to, if from == 0 then 1 else from);
  }

  lemma {:induction false} QuotientTicks(x: nat, d: nat)
    requires d >= 1
    ensures var q := Quotient(x, d);
            q * d <= x < (q + 1) * d && (q > U64_MAX <==> x >= 0x1_0000_0000_0000_0000 * d)
  {
    var q := x / d;
    assert x == d * q + x % d && q * d == d * q && (q + 1) * d == d * q + d;
    if q > U64_MAX { MulMono(d, U64_MAX + 1, q); } else { MulMono(d, q + 1, U64_MAX + 1); }
  }

  /** A finer clock never reorders times. */
  lemma {:induction false} RescaleMono(a: u64, b: u64, from: u32, to: u32)
    requires a <= b
    ensures RescaleTime(a, from, to) <= RescaleTime(b, from, to)
  {
    var d := if from == 0 then 1 else from;
    MulMono(to, a, b);
    assert a * to == to * a && b * to == to * b;
    QuotientMono(a * to, b * to, d);
  }

  lemma {:induction false} QuotientMono(a: nat, b: nat, d: nat)
    requires d >= 1 && a <= b
    ensures a / d <= b / d
  {
    var p, q := a / d, b / d;
    assert a == d * p + a % d && b == d * q + b % d;
    if p > q { MulMono(d, q + 1, p); }
  }

  /** Back into the clock it came from a time stays what it was. */
  lemma {:induction false} RescaleSame(a: u64, scale: u32)
    requires scale >= 1
    ensures RescaleTime(a, scale, scale) == a
  {
    DivIs(a * scale, scale, a, 0);
  }

  function Clamped(x: int): i32 { if x < I32_MIN then I32_MIN else if x > I32_MAX then I32_MAX else x }

  /** Presentation behind decode time, in the track's clock. */
  function RawOffset(p: PacketRef, timescale: u32): i32 {
    Clamped(RescaleTime(p.pts.units, p.pts.scale, timescale) - RescaleTime(p.dts.units, p.dts.scale, timescale))
  }

  function RawSample(p: PacketRef, timescale: u32): Sample {
    Sample(Min(Max(RescaleTime(p.duration.units, p.duration.scale, timescale), 1), U32_MAX), p.size,
           if p.keyframe then SYNC else NOT_SYNC, RawOffset(p, timescale))
  }

  /** How far all offsets are moved up: as far as the lowest lies under zero. */
  function Lowest(packets: seq<PacketRef>, timescale: u32): (r: int)
    ensures I32_MIN <= r <= 0
    ensures forall i :: 0 <= i < |packets| ==> r <= RawOffset(packets[i], timescale)
    ensures r < 0 ==> exists i :: 0 <= i < |packets| && RawOffset(packets[i], timescale) == r
  {
    if packets == [] then 0 else
      var n := |packets| - 1;
      Min(Lowest(packets[..n], timescale), RawOffset(packets[n], timescale))
  }

  predicate MovedUp(s: Sample, p: PacketRef, timescale: u32, lowest: int)
    requires lowest <= 0
  {
    s == RawSample(p, timescale).(compositionOffset := Min(RawOffset(p, timescale) - lowest, I32_MAX))
  }

  /** What a sample says of its packet, but for its offset: the whole ticks of its duration, one at least and as many as
      32 bits hold, its size, and flags by which only a keyframe can be decoded on its own. */
  ghost predicate Describes(s: Sample, p: PacketRef, timescale: u32) {
    && (exists ticks: nat :: WholeTicks(p.duration.units, p.duration.scale, timescale, ticks)
                             && s.duration == (if ticks == 0 then 1 else Min(ticks, 0xffff_ffff)))
    && s.size == p.size
    && s.flags == (if p.keyframe then 0x0200_0000 else 0x0101_0000)
    && ((s.flags as bv32) & 0x0100_0000 != 0 <==> NonSync(s.flags)) && (NonSync(s.flags) <==> !p.keyframe)
  }

  lemma {:induction false} NonSyncIsBit(flags: u32)
    ensures (flags as bv32) & 0x0100_0000 != 0 <==> NonSync(flags)
  {
  }

  lemma {:induction false} SampleDescribes(s: Sample, p: PacketRef, timescale: u32, lowest: int)
    requires lowest <= 0 && MovedUp(s, p, timescale, lowest)
    ensures Describes(s, p, timescale)
  {
    hide RescaleTime, WholeTicks, NonSync;
    RescaledTicks(p.duration.units, p.duration.scale, timescale);
    NonSyncIsBit(s.flags);
    assert NonSync(0x0101_0000) && !NonSync(0x0200_0000) by { TwoFlags(); }
  }

  lemma {:induction false} TwoFlags()
    ensures NonSync(0x0101_0000) && !NonSync(0x0200_0000)
  {
  }

  /** One sample a packet. All offsets move up by the same amount, the least that leaves none negative. */
  method SamplesFromPackets(packets: seq<PacketRef>, timescale: u32) returns (samples: seq<Sample>)
    ensures |samples| == |packets|
    ensures forall i :: 0 <= i < |packets| ==> MovedUp(samples[i], packets[i], timescale, Lowest(packets, timescale))
    ensures forall i :: 0 <= i < |packets| ==> Describes(samples[i], packets[i], timescale)
  {
    hide RescaleTime, RawOffset, Describes;
    samples := [];
    var i: nat, lowest: int := 0, 0;
    assert packets[..0] == [];
    while i < |packets|
      invariant i <= |packets| && |samples| == i && lowest == Lowest(packets[..i], timescale)
      invariant forall k :: 0 <= k < i ==> samples[k] == RawSample(packets[k], timescale)
    {
      assert packets[..i + 1][..i] == packets[..i] && packets[..i + 1][i] == packets[i];
      samples := samples + [RawSample(packets[i], timescale)];
      lowest := Min(lowest, RawOffset(packets[i], timescale));
      i := i + 1;
    }
    assert packets[..i] == packets;
    if lowest < 0 {
      var k: nat := 0;
      while k < |samples|
        invariant k <= |samples| == |packets|
        invariant forall j :: 0 <= j < k ==> MovedUp(samples[j], packets[j], timescale, lowest)
        invariant forall j :: k <= j < |samples| ==> samples[j] == RawSample(packets[j], timescale)
      {
        var s := samples[k];
        samples := samples[k := s.(compositionOffset := Min(s.compositionOffset - lowest, I32_MAX))];
        k := k + 1;
      }
    }
    forall j | 0 <= j < |packets| ensures Describes(samples[j], packets[j], timescale) {
      SampleDescribes(samples[j], packets[j], timescale, Lowest(packets, timescale));
    }
  }

  /** Packets have bytes, and the first is a keyframe. */
  predicate Playable(packets: seq<PacketRef>) {
    packets != [] && packets[0].keyframe && forall i :: 0 <= i < |packets| ==> packets[i].size > 0
  }

  /** Samples made this way keep every rule of a track exactly when the packets are playable, not too many, and the
      clock has room for their durations. */
  lemma {:induction false} MadeSamplesKeepRules(packets: seq<PacketRef>, timescale: u32, track: Track)
    requires |track.samples| == |packets|
    requires forall i :: 0 <= i < |packets| ==>
             MovedUp(track.samples[i], packets[i], timescale, Lowest(packets, timescale))
    ensures Rules(track) <==> && Playable(packets) && |packets| <= MAX_SAMPLES
                              && track.baseDecodeTime + Durations(track.samples) <= U64_MAX
  {
    hide RescaleTime, Lowest, Durations;
    forall i | 0 <= i < |packets|
      ensures Usable(track.samples[i]) <==> packets[i].size > 0
      ensures NonSync(track.samples[i].flags) <==> !packets[i].keyframe
    {
      assert MovedUp(track.samples[i], packets[i], timescale, Lowest(packets, timescale));
    }
    if packets != [] { assert MovedUp(track.samples[0], packets[0], timescale, Lowest(packets, timescale)); }
    if Rules(track) {
      forall i | 0 <= i < |packets| ensures packets[i].size > 0 { assert Usable(track.samples[i]); }
    }
  }

  // ----- packets whose times are in the track's clock already -----

  /** Both times count ticks of the track, and lie less than 2^31 of them apart. */
  predicate InClock(p: PacketRef, timescale: u32) {
    p.pts.scale == p.dts.scale == timescale >= 1 && -0x8000_0000 <= p.pts.units - p.dts.units < 0x8000_0000
  }

  /** And no two packets' differences are 2^31 ticks apart, so that no offset is cut off. */
  ghost predicate AllInClock(packets: seq<PacketRef>, timescale: u32) {
    && (forall i :: 0 <= i < |packets| ==> InClock(packets[i], timescale))
    && forall i, j :: 0 <= i < |packets| && 0 <= j < |packets| ==>
         (packets[i].pts.units - packets[i].dts.units) - (packets[j].pts.units - packets[j].dts.units) < 0x8000_0000
  }

  lemma {:induction false} OffsetInClock(p: PacketRef, timescale: u32)
    requires InClock(p, timescale)
    ensures RawOffset(p, timescale) == p.pts.units - p.dts.units
  {
    RescaleSame(p.pts.units, timescale);
    RescaleSame(p.dts.units, timescale);
  }

  /** Every sample made of such packets is presented behind its decoding as its packet was, moved up by one amount for
      all: none when no packet is presented before its decoding, else the least that leaves none negative. */
  lemma {:induction false} OffsetsAreTimes(packets: seq<PacketRef>, timescale: u32, samples: seq<Sample>)
    returns (shift: nat)
    requires |samples| == |packets| && AllInClock(packets, timescale)
    requires forall k :: 0 <= k < |packets| ==> MovedUp(samples[k], packets[k], timescale, Lowest(packets, timescale))
    ensures forall i :: 0 <= i < |packets| ==>
              samples[i].compositionOffset == packets[i].pts.units - packets[i].dts.units + shift
    ensures shift > 0 ==> exists i :: 0 <= i < |packets| && samples[i].compositionOffset == 0
  {
    hide RescaleTime, Lowest, RawOffset;
    shift := -Lowest(packets, timescale);
    forall i | 0 <= i < |packets|
      ensures RawOffset(packets[i], timescale) == packets[i].pts.units - packets[i].dts.units
    {
      OffsetInClock(packets[i], timescale);
    }
    forall i | 0 <= i < |packets|
      ensures samples[i].compositionOffset == packets[i].pts.units - packets[i].dts.units + shift
    {
      assert MovedUp(samples[i], packets[i], timescale, Lowest(packets, timescale));
      if shift > 0 {
        var j :| 0 <= j < |packets| && RawOffset(packets[j], timescale) == Lowest(packets, timescale);
        assert (packets[i].pts.units - packets[i].dts.units) - (packets[j].pts.units - packets[j].dts.units)
               < 0x8000_0000;
      }
    }
  }

  /** Packets that are decoded one behind the other, each for its duration. */
  ghost predicate DecodedInTurn(packets: seq<PacketRef>, timescale: u32) {
    && (forall i :: 0 <= i < |packets| ==>
          packets[i].duration.scale == timescale && 1 <= packets[i].duration.units <= U32_MAX)
    && forall i :: 0 < i < |packets| ==>
         packets[i].dts.units == packets[i - 1].dts.units + packets[i - 1].duration.units
  }

  lemma {:induction false} DurationsSnoc(samples: seq<Sample>, s: Sample)
    ensures Durations(samples + [s]) == Durations(samples) + s.duration
  {
    if samples == [] {
      assert [] + [s] == [s] && [s][1..] == [];
    } else {
      assert (samples + [s])[1..] == samples[1..] + [s];
      DurationsSnoc(samples[1..], s);
    }
  }

  lemma {:induction false} DecodeTimesAreKept(packets: seq<PacketRef>, timescale: u32, samples: seq<Sample>, i: nat)
    requires |samples| == |packets| && i < |packets| && timescale >= 1 && DecodedInTurn(packets, timescale)
    requires forall k :: 0 <= k < |packets| ==> MovedUp(samples[k], packets[k], timescale, Lowest(packets, timescale))
    ensures packets[0].dts.units + Durations(samples[..i]) == packets[i].dts.units
    decreases i
  {
    hide RescaleTime, Lowest, RawOffset;
    if i > 0 {
      DecodeTimesAreKept(packets, timescale, samples, i - 1);
      assert MovedUp(samples[i - 1], packets[i - 1], timescale, Lowest(packets, timescale));
      RescaleSame(packets[i - 1].duration.units, timescale);
      DurationsSnoc(samples[..i - 1], samples[i - 1]);
      assert samples[..i] == samples[..i - 1] + [samples[i - 1]];
    }
  }

  /** Decode time and offset together show the samples as the packets are presented: when a sample of such packets is
      shown, and when its packet is presented, differ by the same amount for all. */
  lemma {:induction false} ShownAsPresented(packets: seq<PacketRef>, timescale: u32, base: u64, samples: seq<Sample>)
    returns (shift: nat)
    requires |samples| == |packets| != 0 && AllInClock(packets, timescale) && DecodedInTurn(packets, timescale)
    requires base == RescaleTime(packets[0].dts.units, packets[0].dts.scale, timescale)
    requires forall k :: 0 <= k < |packets| ==> MovedUp(samples[k], packets[k], timescale, Lowest(packets, timescale))
    ensures forall i :: 0 <= i < |packets| ==>
              base + Durations(samples[..i]) + samples[i].compositionOffset == packets[i].pts.units + shift
  {
    hide RescaleTime, Lowest, RawOffset, MovedUp, Durations;
    assert InClock(packets[0], timescale);
    RescaleSame(packets[0].dts.units, timescale);
    shift := OffsetsAreTimes(packets, timescale, samples);
    forall i | 0 <= i < |packets|
      ensures base + Durations(samples[..i]) + samples[i].compositionOffset == packets[i].pts.units + shift
    {
      DecodeTimesAreKept(packets, timescale, samples, i);
    }
  }

  /** The order in which samples are shown relative to their decoding is kept: offsets differ as they did. */
  lemma {:induction false} OffsetsDifferAsBefore(packets: seq<PacketRef>, timescale: u32, samples: seq<Sample>,
                                                 i: nat, j: nat)
    requires |samples| == |packets| && i < |packets| && j < |packets|
    requires forall k :: 0 <= k < |packets| ==> MovedUp(samples[k], packets[k], timescale, Lowest(packets, timescale))
    requires RawOffset(packets[i], timescale) - Lowest(packets, timescale) <= I32_MAX
    requires RawOffset(packets[j], timescale) - Lowest(packets, timescale) <= I32_MAX
    ensures samples[i].compositionOffset - samples[j].compositionOffset ==
            RawOffset(packets[i], timescale) - RawOffset(packets[j], timescale)
  {
    hide RescaleTime, Lowest;
    assert MovedUp(samples[i], packets[i], timescale, Lowest(packets, timescale));
    assert MovedUp(samples[j], packets[j], timescale, Lowest(packets, timescale));
  }
}
