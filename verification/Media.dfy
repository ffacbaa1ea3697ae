/** Packet references and media time, shared by the readers, planners and muxers. */
module Media {
  import opened Machine

  /** A timestamp or duration of `units` ticks, `scale` ticks to the second. */
  datatype MediaTime = MediaTime(units: u64, scale: u32)
  {
    /** Truncating conversion; a zero scale or an overflowing result reads as zero. */
    function AsMillis(): u64 {
      ToMillis(scale, units)
    }
  }

  function ToMillis(scale: u32, units: u64): u64 {
    if scale == 0 then 0
    else if units * 1000 / scale > U64_MAX then 0
    else units * 1000 / scale
  }

  /** What a conversion to milliseconds is: the whole milliseconds, the last of them begun; zero for a clock that stands
      still or a count that leaves 64 bits. */
  ghost predicate WholeMillis(scale: u32, units: u64, ms: nat) {
    if scale == 0 || units * 1000 >= 0x1_0000_0000_0000_0000 * scale then ms == 0
    else ms * scale <= units * 1000 < (ms + 1) * scale
  }

  lemma {:induction false} MillisAreWhole(scale: u32, units: u64)
    ensures WholeMillis(scale, units, ToMillis(scale, units))
  {
    if scale > 0 {
      var x, q := units * 1000, units * 1000 / scale;
      assert x == scale * q + x % scale;
      assert q * scale == scale * q && (q + 1) * scale == scale * q + scale;
      if q > U64_MAX {
        MulMono(scale, U64_MAX + 1, q);
      } else {
        MulMono(scale, q + 1, U64_MAX + 1);
      }
    }
  }

  datatype PacketRef = PacketRef(
    sourceOffset: u64,
    size: u32,
    pts: MediaTime,
    dts: MediaTime,
    duration: MediaTime,
    keyframe: bool)

  /** Presentation end in milliseconds, saturating. */
  function PacketEndMs(p: PacketRef): u64 {
    SatAdd(p.pts.AsMillis(), p.duration.AsMillis())
  }

  /** A keyframe-aligned run of packets `first..end` of one track. */
  datatype NativeChunk = NativeChunk(
    index: nat, startMs: u64, durationMs: u64, first: nat, end: nat, keyAligned: bool)

  /** A half-open span of presentation time, one output segment. */
  datatype SegmentWindow = SegmentWindow(index: nat, startMs: u64, endMs: u64)

  predicate Holds(w: SegmentWindow, ms: u64) { w.startMs <= ms < w.endMs }

  predicate InWindow(p: PacketRef, w: SegmentWindow) { Holds(w, p.pts.AsMillis()) }

  /** The packets presented in a window. */
  function InsideWindow(packets: seq<PacketRef>, w: SegmentWindow): seq<PacketRef> {
    if packets == [] then [] else
      (if InWindow(packets[0], w) then [packets[0]] else []) + InsideWindow(packets[1..], w)
  }

  /** The payload bytes of the packets presented in a window. */
  function WindowBytes(packets: seq<PacketRef>, w: SegmentWindow): nat {
    if packets == [] then 0
    else (if InWindow(packets[0], w) then packets[0].size else 0) + WindowBytes(packets[1..], w)
  }

  lemma {:induction false} WindowBytesSnoc(packets: seq<PacketRef>, p: PacketRef, w: SegmentWindow)
    ensures WindowBytes(packets + [p], w) == WindowBytes(packets, w) + if InWindow(p, w) then p.size else 0
  {
    if packets != [] {
      assert (packets + [p])[1..] == packets[1..] + [p];
      WindowBytesSnoc(packets[1..], p, w);
    }
  }
}
