/** Matroska blocks: EBML numbers (section 4 of RFC 8794) and lacing (section 10.3 of RFC 9559). */
module Lacing {
  import opened Machine

  // ----- EBML variable-size numbers -----

  /** A number and the bytes it took. */
  datatype Vint = Vint(value: int, length: nat)

  /** The length the first byte announces. */
  function VintLength(first: byte): Option<nat> {
    if first >= 128 then Some(1)
    else if first >= 64 then Some(2)
    else if first >= 32 then Some(3)
    else if first >= 16 then Some(4)
    else if first >= 8 then Some(5)
    else if first >= 4 then Some(6)
    else if first >= 2 then Some(7)
    else if first >= 1 then Some(8)
    else None
  }

  /** The marker bit of a length. */
  function Marker(length: nat): (r: nat)
    requires 1 <= length <= 8
    ensures r <= 128
  {
    if length == 1 then 128 else if length == 2 then 64 else if length == 3 then 32 else if length == 4 then 16
    else if length == 5 then 8 else if length == 6 then 4 else if length == 7 then 2 else 1
  }

  function ReadVintSize(b: seq<byte>): (r: Option<Vint>)
    ensures r.Some? ==> r.value.value >= 0 && 1 <= r.value.length <= Min(8, |b|)
  {
    if b == [] || VintLength(b[0]).None? then None else
      var n := VintLength(b[0]).value;
      if |b| < n then None else Some(Vint(BeUint([b[0] as int % Marker(n)] + b[1..n]), n))
  }

  /** What a signed number is stored with: half of the range, less one. */
  function Bias(length: nat): nat
    requires 1 <= length <= 8
  {
    Range(length) / 2 - 1
  }

  /** Values that fit `length` bytes: seven bits each. */
  function Range(length: nat): (r: nat)
    requires 1 <= length <= 8
    ensures r >= 128
  {
    if length == 1 then 0x80 else if length == 2 then 0x4000 else if length == 3 then 0x20_0000
    else if length == 4 then 0x1000_0000 else if length == 5 then 0x8_0000_0000 else if length == 6 then 0x400_0000_0000
    else if length == 7 then 0x2_0000_0000_0000 else 0x100_0000_0000_0000
  }

  function ReadSignedVint(b: seq<byte>): (r: Option<Vint>)
    ensures r.Some? ==> 1 <= r.value.length <= Min(8, |b|)
  {
    match ReadVintSize(b)
    case None => None
    case Some(v) => Some(Vint(v.value - Bias(v.length), v.length))
  }

  lemma {:induction false} RangeIsMarked(length: nat)
    requires 1 <= length <= 8
    ensures Range(length) == Marker(length) * Pow256(length - 1) <= Pow256(length)
  {
    assert Pow256(1) == 0x100 && Pow256(2) == 0x1_0000 && Pow256(3) == 0x100_0000;
    assert Pow256(4) == 0x1_0000_0000 && Pow256(5) == 0x100_0000_0000;
    assert Pow256(6) == 0x1_0000_0000_0000 && Pow256(7) == 0x100_0000_0000_0000;
  }

  predicate FitsVint(value: int, length: nat) {
    1 <= length <= 8 && 0 <= value < Range(length)
  }

  lemma {:induction false} FirstBelowMarker(value: nat, length: nat)
    requires FitsVint(value, length)
    ensures BeBytes(value, length)[0] as int < Marker(length)
  {
    RangeIsMarked(length);
    BeFirst(value, length, Marker(length));
  }

  function EncodeVint(value: nat, length: nat): (b: seq<byte>)
    requires FitsVint(value, length)
    ensures |b| == length
  {
    var raw := BeBytes(value, length);
    FirstBelowMarker(value, length);
    [raw[0] as int + Marker(length)] + raw[1..]
  }

  lemma {:induction false} AnnouncesLength(first: nat, length: nat)
    requires 1 <= length <= 8 && first < Marker(length)
    ensures VintLength(first + Marker(length)) == Some(length) && (first + Marker(length)) % Marker(length) == first
  {
  }

  lemma {:induction false} VintRoundTrip(value: nat, length: nat, rest: seq<byte>)
    requires FitsVint(value, length)
    ensures ReadVintSize(EncodeVint(value, length) + rest) == Some(Vint(value, length))
  {
    hide VintLength, Marker, Range, BeUint, BeBytes;
    var raw, b := BeBytes(value, length), EncodeVint(value, length) + rest;
    FirstBelowMarker(value, length);
    AnnouncesLength(raw[0], length);
    assert b[0] as int == raw[0] as int + Marker(length);
    assert b[1..length] == raw[1..] && [raw[0]] + raw[1..] == raw;
    RangeIsMarked(length);
    BeRoundTrip(value, length);
  }

  predicate FitsSigned(value: int, length: nat) {
    1 <= length <= 8 && FitsVint(value + Bias(length), length)
  }

  function EncodeSigned(value: int, length: nat): (b: seq<byte>)
    requires FitsSigned(value, length)
    ensures |b| == length
  {
    EncodeVint(value + Bias(length), length)
  }

  /** Reading from a prefix, when it succeeds, reads the same from the whole. */
  lemma {:induction false} VintPrefix(b: seq<byte>, full: seq<byte>)
    requires b <= full && ReadVintSize(b).Some?
    ensures ReadVintSize(full) == ReadVintSize(b)
    ensures ReadSignedVint(full) == ReadSignedVint(b)
  {
    var n := VintLength(b[0]).value;
    assert full[1..n] == b[1..n];
  }

  lemma {:induction false} BeUintBound(first: nat, rest: seq<byte>, m: nat)
    requires first < m <= 256
    ensures BeUint([first] + rest) < m * Pow256(|rest|)
    decreases |rest|
  {
    if rest == [] {
      assert BeUint([first] + rest) == BeUint([]) * 256 + first;
    } else {
      var k := |rest| - 1;
      BeUintBound(first, rest[..k], m);
      assert ([first] + rest)[..k + 1] == [first] + rest[..k];
      Scaled(m, Pow256(k), BeUint([first] + rest[..k]));
    }
  }

  lemma {:induction false} Scaled(m: nat, p: nat, x: nat)
    requires x < m * p
    ensures x * 256 + 255 < m * (256 * p)
  {
    assert m * (256 * p) == 256 * (m * p);
  }

  /** What `n` bytes say stays below seven bits for each. */
  lemma {:induction false} VintBound(b: seq<byte>)
    requires ReadVintSize(b).Some?
    ensures var v := ReadVintSize(b).value;
            FitsVint(v.value, v.length) && v.value - Bias(v.length) <= 0x80_0000_0000_0000
  {
    var n := VintLength(b[0]).value;
    RangeIsMarked(n);
    BeUintBound(b[0] as int % Marker(n), b[1..n], Marker(n));
  }

  // ----- lace tables -----

  /** Sizes, and how many bytes said so. */
  datatype Table = Table(sizes: seq<nat>, length: nat)

  /** Sizes already known, in front of the ones still to come. */
  function After(sizes: seq<nat>, length: nat, rest: Option<Table>): Option<Table> {
    match rest
    case None => None
    case Some(table) => Some(Table(sizes + table.sizes, length + table.length))
  }

  lemma {:induction false} AfterAfter(a: seq<nat>, m: nat, b: seq<nat>, n: nat, rest: Option<Table>)
    ensures After(a, m, After(b, n, rest)) == After(a + b, m + n, rest)
  {
    if rest.Some? { Regroup(a, b, rest.value.sizes); }
  }

  /** One Xiph size: 255s and a closing smaller byte. */
  function XiphSize(b: seq<byte>): (r: Option<Vint>)
    ensures r.Some? ==> r.value.value >= 0 && 1 <= r.value.length <= |b|
    decreases |b|
  {
    if b == [] then None
    else if b[0] != 255 then Some(Vint(b[0] as int, 1))
    else Longer(255, 1, XiphSize(b[1..]))
  }

  function Longer(value: nat, length: nat, rest: Option<Vint>): Option<Vint> {
    match rest
    case None => None
    case Some(v) => Some(Vint(value + v.value, length + v.length))
  }

  /** `n` Xiph sizes in a row. */
  function XiphSizes(b: seq<byte>, n: nat): (r: Option<Table>)
    ensures r.Some? ==> |r.value.sizes| == n && r.value.length <= |b|
    decreases n
  {
    if n == 0 then Some(Table([], 0))
    else match XiphSize(b)
      case None => None
      case Some(v) => After([v.value], v.length, XiphSizes(b[v.length..], n - 1))
  }

  /** `n` EBML-laced sizes: each a signed difference to the one before. */
  function EbmlSizes(b: seq<byte>, previous: int, n: nat): (r: Option<Table>)
    ensures r.Some? ==> |r.value.sizes| == n && r.value.length <= |b|
    decreases n
  {
    if n == 0 then Some(Table([], 0))
    else match ReadSignedVint(b)
      case None => None
      case Some(v) =>
        if previous + v.value < 0 then None
        else After([previous + v.value], v.length, EbmlSizes(b[v.length..], previous + v.value, n - 1))
  }

  /** Frame sizes and where the frame data starts. */
  datatype Lace = Lace(sizes: seq<nat>, cursor: nat)

  /** The last frame takes what is left of the block. */
  function WithLast(from: nat, table: Option<Table>, total: nat): Option<Lace> {
    if table.None? then None else
      var cursor := from + table.value.length;
      if cursor > total || Sum(table.value.sizes) > total - cursor then None
      else Some(Lace(table.value.sizes + [total - cursor - Sum(table.value.sizes)], cursor))
  }

  function XiphLace(b: seq<byte>, total: nat, at: nat): Option<Lace> {
    if at >= |b| then None else WithLast(at + 1, XiphSizes(b[at + 1..], b[at] as int), total)
  }

  function Copies(size: nat, n: nat): (r: seq<nat>)
    ensures |r| == n
  {
    if n == 0 then [] else [size] + Copies(size, n - 1)
  }

  function FixedLace(b: seq<byte>, total: nat, at: nat): Option<Lace> {
    if at >= |b| || at + 1 > total then None else
      var count := b[at] as int + 1;
      if (total - at - 1) % count != 0 then None else Some(Lace(Copies((total - at - 1) / count, count), at + 1))
  }

  /** With more than one frame: the first size, then the differences. */
  function EbmlTable(b: seq<byte>, n: nat): (r: Option<Table>)
    requires n >= 1
    ensures r.Some? ==> |r.value.sizes| == n
  {
    match ReadVintSize(b)
    case None => None
    case Some(first) => After([first.value], first.length, EbmlSizes(b[first.length..], first.value, n - 1))
  }

  function EbmlLace(b: seq<byte>, total: nat, at: nat): Option<Lace> {
    if at >= |b| then None
    else if b[at] == 0 then (if at + 1 > total then None else Some(Lace([total - at - 1], at + 1)))
    else WithLast(at + 1, EbmlTable(b[at + 1..], b[at] as int), total)
  }

  /** The lace table for lacing mode 0 (none), 1 (Xiph), 2 (fixed) or 3 (EBML). */
  function LaceOf(b: seq<byte>, total: nat, at: nat, mode: nat): Option<Lace> {
    if mode == 0 then (if at > total then None else Some(Lace([total - at], at)))
    else if mode == 1 then XiphLace(b, total, at)
    else if mode == 2 then FixedLace(b, total, at)
    else EbmlLace(b, total, at)
  }

  /** How many frames a block announces. */
  function FrameCount(b: seq<byte>, at: nat, mode: nat): nat {
    if mode == 0 || at >= |b| then 1 else b[at] as int + 1
  }

  // ----- frames -----

  datatype Frame = Frame(offset: u64, size: u32)

  /** Frames one behind the other, unless an offset or a size leaves its type. */
  function FramesFrom(base: nat, cursor: nat, sizes: seq<nat>): Option<seq<Frame>>
    decreases |sizes|
  {
    if sizes == [] then Some([])
    else if base + cursor > U64_MAX || sizes[0] > U32_MAX || cursor + sizes[0] > U64_MAX then None
    else match FramesFrom(base, cursor + sizes[0], sizes[1..])
      case None => None
      case Some(rest) => Some([Frame(base + cursor, sizes[0])] + rest)
  }

  /** The frames lie end to end from `from` to `to`. */
  ghost predicate EndToEnd(frames: seq<Frame>, from: nat, to: nat)
    decreases |frames|
  {
    if frames == [] then from == to
    else frames[0].offset == from && EndToEnd(frames[1..], from + frames[0].size, to)
  }

  lemma {:induction false} FramesAreEndToEnd(base: nat, cursor: nat, sizes: seq<nat>)
    ensures var r := FramesFrom(base, cursor, sizes);
            r.Some? ==> |r.value| == |sizes| && EndToEnd(r.value, base + cursor, base + cursor + Sum(sizes)) &&
                        forall i :: 0 <= i < |sizes| ==> r.value[i].size == sizes[i]
    decreases |sizes|
  {
    var r := FramesFrom(base, cursor, sizes);
    if sizes != [] && r.Some? {
      FramesAreEndToEnd(base, cursor + sizes[0], sizes[1..]);
      assert r.value[1..] == FramesFrom(base, cursor + sizes[0], sizes[1..]).value;
    }
  }

  lemma {:induction false} CopiesSum(size: nat, n: nat)
    ensures Sum(Copies(size, n)) == size * n
  {
    if n > 0 {
      CopiesSum(size, n - 1);
      assert Copies(size, n)[1..] == Copies(size, n - 1);
      assert size * n == size + size * (n - 1);
    }
  }

  lemma {:induction false} OneSum(size: nat)
    ensures Sum([size]) == size
  {
    assert [size][1..] == [];
  }

  lemma {:induction false} WithLastFills(from: nat, table: Option<Table>, total: nat)
    ensures var r := WithLast(from, table, total);
            r.Some? ==> && from <= r.value.cursor && r.value.cursor + Sum(r.value.sizes) == total
                        && |r.value.sizes| == |table.value.sizes| + 1
  {
    if WithLast(from, table, total).Some? {
      var last := total - from - table.value.length - Sum(table.value.sizes);
      SumAppend(table.value.sizes, [last]);
      OneSum(last);
    }
  }

  /** Every lace table covers the block's data exactly, with the announced number of frames. */
  lemma {:induction false} LaceFills(b: seq<byte>, total: nat, at: nat, mode: nat)
    ensures var r := LaceOf(b, total, at, mode);
            r.Some? ==> && at <= r.value.cursor && r.value.cursor + Sum(r.value.sizes) == total
                        && |r.value.sizes| == FrameCount(b, at, mode)
  {
    if mode == 0 {
      if at <= total { OneSum(total - at); }
    } else if at >= |b| {
    } else if mode == 1 {
      WithLastFills(at + 1, XiphSizes(b[at + 1..], b[at] as int), total);
    } else if mode == 2 {
      FixedFills(b, total, at);
    } else if b[at] == 0 {
      if at + 1 <= total { OneSum(total - at - 1); }
    } else {
      WithLastFills(at + 1, EbmlTable(b[at + 1..], b[at] as int), total);
    }
  }

  lemma {:induction false} FixedFills(b: seq<byte>, total: nat, at: nat)
    requires at < |b|
    ensures var r := FixedLace(b, total, at);
            r.Some? ==> r.value.cursor + Sum(r.value.sizes) == total && |r.value.sizes| == b[at] as int + 1
  {
    var r := FixedLace(b, total, at);
    if r.Some? {
      var count := b[at] as int + 1;
      CopiesSum((total - at - 1) / count, count);
      assert (total - at - 1) / count * count == total - at - 1;
    }
  }

  // ----- blocks -----

  datatype Block = Block(trackNumber: int, relativeTimecode: int, keyframe: bool, frames: seq<Frame>)

  function FramesOf(base: nat, lace: Option<Lace>): Option<seq<Frame>> {
    match lace
    case None => None
    case Some(lace) => FramesFrom(base, lace.cursor, lace.sizes)
  }

  function Signed16(x: nat): int { if x >= 0x8000 then x - 0x1_0000 else x }

  function LacingMode(flags: byte): nat { flags as int / 2 % 4 }

  function ParseBlockPrefix(b: seq<byte>, total: nat, base: nat, forced: Option<bool>): Option<Block> {
    match ReadVintSize(b)
    case None => None
    case Some(track) =>
      var n := track.length;
      if |b| < n + 3 then None else
        match FramesOf(base, LaceOf(b, total, n + 3, LacingMode(b[n + 2])))
        case None => None
        case Some(frames) =>
          Some(Block(track.value, Signed16(BeUint(b[n..n + 2])),
                     if forced.Some? then forced.value else b[n + 2] >= 128, frames))
  }

  function ParseBlock(b: seq<byte>, base: nat, forced: Option<bool>): Option<Block> {
    ParseBlockPrefix(b, |b|, base, forced)
  }

  /** A parsed block's frames tile its data: as many as announced, end to end, from behind the lace table to the
      end of the block. */
  lemma {:induction false} BlockTiles(b: seq<byte>, total: nat, base: nat, forced: Option<bool>)
    ensures var r := ParseBlockPrefix(b, total, base, forced);
            r.Some? ==>
              var at := ReadVintSize(b).value.length + 3;
              var lace := LaceOf(b, total, at, LacingMode(b[at - 1]));
              && lace.Some? && at <= lace.value.cursor
              && |r.value.frames| == FrameCount(b, at, LacingMode(b[at - 1]))
              && EndToEnd(r.value.frames, base + lace.value.cursor, base + total)
  {
    hide LaceOf, FramesFrom, EndToEnd, VintLength, Marker, BeUint, Sum, FrameCount, LacingMode;
    if ParseBlockPrefix(b, total, base, forced).Some? {
      var at := ReadVintSize(b).value.length + 3;
      LaceFills(b, total, at, LacingMode(b[at - 1]));
      var lace := LaceOf(b, total, at, LacingMode(b[at - 1])).value;
      FramesAreEndToEnd(base, lace.cursor, lace.sizes);
    }
  }

  // ----- prefixes -----

  lemma {:induction false} Later(b: seq<byte>, full: seq<byte>, n: nat)
    requires b <= full && n <= |b|
    ensures b[n..] <= full[n..]
  {
  }

  lemma {:induction false} XiphSizePrefix(b: seq<byte>, full: seq<byte>)
    requires b <= full && XiphSize(b).Some?
    ensures XiphSize(full) == XiphSize(b)
    decreases |b|
  {
    if b[0] == 255 {
      Later(b, full, 1);
      XiphSizePrefix(b[1..], full[1..]);
    }
  }

  lemma {:induction false} XiphSizesPrefix(b: seq<byte>, full: seq<byte>, n: nat)
    requires b <= full && XiphSizes(b, n).Some?
    ensures XiphSizes(full, n) == XiphSizes(b, n)
    decreases n
  {
    if n > 0 {
      XiphSizePrefix(b, full);
      var k := XiphSize(b).value.length;
      Later(b, full, k);
      XiphSizesPrefix(b[k..], full[k..], n - 1);
    }
  }

  lemma {:induction false} EbmlSizesPrefix(b: seq<byte>, full: seq<byte>, previous: int, n: nat)
    requires b <= full && EbmlSizes(b, previous, n).Some?
    ensures EbmlSizes(full, previous, n) == EbmlSizes(b, previous, n)
    decreases n
  {
    if n > 0 {
      hide ReadVintSize, ReadSignedVint;
      VintPrefix(b, full);
      var v := ReadSignedVint(b).value;
      Later(b, full, v.length);
      EbmlSizesPrefix(b[v.length..], full[v.length..], previous + v.value, n - 1);
    }
  }

  lemma {:induction false} EbmlTablePrefix(b: seq<byte>, full: seq<byte>, n: nat)
    requires n >= 1 && b <= full && EbmlTable(b, n).Some?
    ensures EbmlTable(full, n) == EbmlTable(b, n)
  {
    VintPrefix(b, full);
    var first := ReadVintSize(b).value;
    Later(b, full, first.length);
    EbmlSizesPrefix(b[first.length..], full[first.length..], first.value, n - 1);
  }

  lemma {:induction false} LacePrefix(b: seq<byte>, full: seq<byte>, total: nat, at: nat, mode: nat)
    requires b <= full && LaceOf(b, total, at, mode).Some?
    ensures LaceOf(full, total, at, mode) == LaceOf(b, total, at, mode)
  {
    if mode > 0 { Later(b, full, at + 1); }
    if mode == 1 {
      XiphSizesPrefix(b[at + 1..], full[at + 1..], b[at] as int);
    } else if mode > 2 && b[at] > 0 {
      EbmlTablePrefix(b[at + 1..], full[at + 1..], b[at] as int);
    }
  }

  /** Parsing a prefix of a block, whenever it succeeds, equals parsing the whole block. */
  lemma {:induction false} PrefixParsesAsBlock(full: seq<byte>, k: nat, base: nat, forced: Option<bool>)
    requires k <= |full| && ParseBlockPrefix(full[..k], |full|, base, forced).Some?
    ensures ParseBlock(full, base, forced) == ParseBlockPrefix(full[..k], |full|, base, forced)
  {
    var b := full[..k];
    VintPrefix(b, full);
    var n := ReadVintSize(b).value.length;
    assert b[n..n + 2] == full[n..n + 2] && b[n + 2] == full[n + 2];
    LacePrefix(b, full, |full|, n + 3, LacingMode(b[n + 2]));
  }

  // ----- encoders of section 10.3 of RFC 9559 -----

  function XiphBytes(size: nat): (b: seq<byte>) {
    if size < 255 then [size] else [255] + XiphBytes(size - 255)
  }

  function XiphTable(sizes: seq<nat>): seq<byte> {
    if sizes == [] then [] else XiphBytes(sizes[0]) + XiphTable(sizes[1..])
  }

  /** Count byte, then every size but the last. */
  function XiphHeader(sizes: seq<nat>): seq<byte>
    requires 1 <= |sizes| <= 256
  {
    [|sizes| - 1] + XiphTable(sizes[..|sizes| - 1])
  }

  lemma {:induction false} XiphSizeInverse(size: nat, rest: seq<byte>)
    ensures XiphSize(XiphBytes(size) + rest) == Some(Vint(size, |XiphBytes(size)|))
    decreases size
  {
    if size >= 255 {
      XiphSizeInverse(size - 255, rest);
      assert (XiphBytes(size) + rest)[1..] == XiphBytes(size - 255) + rest;
    }
  }

  /** Dropping what was put in front. */
  lemma {:induction false} Dropped<T>(head: seq<T>, tail: seq<T>)
    ensures (head + tail)[|head|..] == tail
  {
  }

  lemma {:induction false} XiphSizesJoin(size: nat, head: seq<byte>, tail: seq<byte>, table: Table)
    requires XiphSize(head + tail) == Some(Vint(size, |head|)) && XiphSizes(tail, |table.sizes|) == Some(table)
    ensures XiphSizes(head + tail, |table.sizes| + 1) == Some(Table([size] + table.sizes, |head| + table.length))
  {
    Dropped(head, tail);
  }

  lemma {:induction false} XiphTableStep(sizes: seq<nat>, rest: seq<byte>)
    requires sizes != []
    ensures XiphTable(sizes) + rest == XiphBytes(sizes[0]) + (XiphTable(sizes[1..]) + rest)
    ensures |XiphTable(sizes)| == |XiphBytes(sizes[0])| + |XiphTable(sizes[1..])|
    ensures sizes == [sizes[0]] + sizes[1..]
  {
    hide XiphBytes;
    Regroup(XiphBytes(sizes[0]), XiphTable(sizes[1..]), rest);
  }

  lemma {:induction false} XiphTableInverse(sizes: seq<nat>, rest: seq<byte>)
    ensures XiphSizes(XiphTable(sizes) + rest, |sizes|) == Some(Table(sizes, |XiphTable(sizes)|))
    decreases |sizes|
  {
    if sizes != [] {
      hide *;
      var tail := XiphTable(sizes[1..]);
      XiphTableStep(sizes, rest);
      XiphSizeInverse(sizes[0], tail + rest);
      XiphTableInverse(sizes[1..], rest);
      XiphSizesJoin(sizes[0], XiphBytes(sizes[0]), tail + rest, Table(sizes[1..], |tail|));
    }
  }

  lemma {:induction false} LastIsRest(from: nat, sizes: seq<nat>, length: nat, total: nat)
    requires sizes != [] && total == from + length + Sum(sizes)
    ensures WithLast(from, Some(Table(sizes[..|sizes| - 1], length)), total) == Some(Lace(sizes, from + length))
  {
    var front, last := sizes[..|sizes| - 1], sizes[|sizes| - 1];
    assert sizes == front + [last];
    SumAppend(front, [last]);
    OneSum(last);
  }

  /** Xiph lacing of any frame sizes parses back to them. */
  lemma {:induction false} XiphInverse(before: seq<byte>, sizes: seq<nat>, data: seq<byte>)
    requires 1 <= |sizes| <= 256 && |data| == Sum(sizes)
    ensures var b := before + XiphHeader(sizes) + data;
            XiphLace(b, |b|, |before|) == Some(Lace(sizes, |before + XiphHeader(sizes)|))
  {
    var b, table := before + XiphHeader(sizes) + data, XiphTable(sizes[..|sizes| - 1]);
    assert b[|before|] as int == |sizes| - 1 && b[|before| + 1..] == table + data;
    XiphTableInverse(sizes[..|sizes| - 1], data);
    LastIsRest(|before| + 1, sizes, |table|, |b|);
  }

  /** Fixed lacing of equal sizes parses back to them. */
  lemma {:induction false} FixedInverse(before: seq<byte>, size: nat, count: nat, data: seq<byte>)
    requires 1 <= count <= 256 && |data| == size * count
    ensures var b := before + [count - 1] + data;
            FixedLace(b, |b|, |before|) == Some(Lace(Copies(size, count), |before| + 1))
  {
    var b := before + [count - 1] + data;
    assert b[|before|] as int == count - 1 && |b| - |before| - 1 == size * count;
    ExactQuotient(size, count);
  }

  lemma {:induction false} ExactQuotient(size: nat, count: nat)
    requires count >= 1
    ensures (size * count) % count == 0 && (size * count) / count == size
  {
    DivIs(size * count, count, size, 0);
  }

  /** The chosen lengths hold every difference. */
  predicate EbmlFits(previous: nat, sizes: seq<nat>, lengths: seq<nat>)
    requires |sizes| == |lengths|
    decreases |sizes|
  {
    sizes == [] || (FitsSigned(sizes[0] - previous, lengths[0]) && EbmlFits(sizes[0], sizes[1..], lengths[1..]))
  }

  /** Differences of the middle sizes, each in the length chosen for it. */
  function EbmlPieces(previous: nat, sizes: seq<nat>, lengths: seq<nat>): seq<seq<byte>>
    requires |sizes| == |lengths| && EbmlFits(previous, sizes, lengths)
    decreases |sizes|
  {
    if sizes == [] then [] else
      [EncodeSigned(sizes[0] - previous, lengths[0])] + EbmlPieces(sizes[0], sizes[1..], lengths[1..])
  }

  ghost predicate Says(piece: seq<byte>, value: int) {
    forall rest: seq<byte> :: ReadSignedVint(piece + rest) == Some(Vint(value, |piece|))
  }

  lemma {:induction false} SignedRoundTrip(value: int, length: nat)
    requires FitsSigned(value, length)
    ensures Says(EncodeSigned(value, length), value)
  {
    hide EncodeVint, VintLength, Marker, BeUint, Range;
    forall rest: seq<byte> ensures ReadSignedVint(EncodeSigned(value, length) + rest) == Some(Vint(value, length)) {
      VintRoundTrip(value + Bias(length), length, rest);
    }
  }

  /** Each piece says the difference of its size to the one before. */
  ghost predicate Tells(pieces: seq<seq<byte>>, previous: int, sizes: seq<nat>)
    requires |pieces| == |sizes|
    decreases |sizes|
  {
    sizes == [] || (Says(pieces[0], sizes[0] - previous) && Tells(pieces[1..], sizes[0], sizes[1..]))
  }

  lemma {:induction false} PiecesTell(previous: nat, sizes: seq<nat>, lengths: seq<nat>)
    requires |sizes| == |lengths| && EbmlFits(previous, sizes, lengths)
    ensures |EbmlPieces(previous, sizes, lengths)| == |sizes|
    ensures Tells(EbmlPieces(previous, sizes, lengths), previous, sizes)
    decreases |sizes|
  {
    if sizes != [] {
      var pieces := EbmlPieces(previous, sizes, lengths);
      SignedRoundTrip(sizes[0] - previous, lengths[0]);
      PiecesTell(sizes[0], sizes[1..], lengths[1..]);
      assert pieces[1..] == EbmlPieces(sizes[0], sizes[1..], lengths[1..]);
    }
  }

  lemma {:induction false} EbmlSizesJoin(previous: int, size: nat, head: seq<byte>, tail: seq<byte>, table: Table)
    requires Says(head, size - previous) && EbmlSizes(tail, size, |table.sizes|) == Some(table)
    ensures EbmlSizes(head + tail, previous, |table.sizes| + 1) ==
            Some(Table([size] + table.sizes, |head| + table.length))
  {
    assert ReadSignedVint(head + tail) == Some(Vint(size - previous, |head|));
    Dropped(head, tail);
  }

  lemma {:induction false} FlattenStep(pieces: seq<seq<byte>>, rest: seq<byte>)
    requires pieces != []
    ensures Flatten(pieces) + rest == pieces[0] + (Flatten(pieces[1..]) + rest)
    ensures |Flatten(pieces)| == |pieces[0]| + |Flatten(pieces[1..])|
  {
  }

  lemma {:induction false} TellsStep(pieces: seq<seq<byte>>, previous: int, sizes: seq<nat>)
    requires |pieces| == |sizes| > 0 && Tells(pieces, previous, sizes)
    ensures Says(pieces[0], sizes[0] - previous) && Tells(pieces[1..], sizes[0], sizes[1..])
    ensures sizes == [sizes[0]] + sizes[1..]
  {
  }

  lemma {:induction false} NoSizesLeft(previous: int, rest: seq<byte>)
    ensures EbmlSizes(Flatten<byte>([]) + rest, previous, 0) == Some(Table([], |Flatten<byte>([])|))
  {
  }

  lemma {:induction false} EbmlSizesInverse(pieces: seq<seq<byte>>, previous: int, sizes: seq<nat>, rest: seq<byte>)
    requires |pieces| == |sizes| && Tells(pieces, previous, sizes)
    ensures EbmlSizes(Flatten(pieces) + rest, previous, |sizes|) == Some(Table(sizes, |Flatten(pieces)|))
    decreases |sizes|
  {
    hide *;
    if sizes == [] {
      NoSizesLeft(previous, rest);
    } else {
      var tail := Flatten(pieces[1..]);
      TellsStep(pieces, previous, sizes);
      FlattenStep(pieces, rest);
      EbmlSizesInverse(pieces[1..], sizes[0], sizes[1..], rest);
      EbmlSizesJoin(previous, sizes[0], pieces[0], tail + rest, Table(sizes[1..], |tail|));
    }
  }

  /** The chosen lengths hold the first size and every difference. */
  predicate EbmlEncodes(sizes: seq<nat>, lengths: seq<nat>) {
    && 1 <= |sizes| <= 256 && |lengths| == |sizes| - 1
    && (|sizes| > 1 ==> FitsVint(sizes[0], lengths[0]) && EbmlFits(sizes[0], sizes[1..|sizes| - 1], lengths[1..]))
  }

  /** With more than one frame: the first size and the differences up to the last but one. */
  function EbmlHeaderTable(sizes: seq<nat>, lengths: seq<nat>): seq<byte>
    requires EbmlEncodes(sizes, lengths) && |sizes| > 1
  {
    EncodeVint(sizes[0], lengths[0]) + Flatten(EbmlPieces(sizes[0], sizes[1..|sizes| - 1], lengths[1..]))
  }

  /** Count byte, then the table. */
  function EbmlHeader(sizes: seq<nat>, lengths: seq<nat>): seq<byte>
    requires EbmlEncodes(sizes, lengths)
  {
    [|sizes| - 1] + if |sizes| == 1 then [] else EbmlHeaderTable(sizes, lengths)
  }

  lemma {:induction false} EbmlTableJoins(first: seq<byte>, value: nat, pieces: seq<seq<byte>>, sizes: seq<nat>,
                                          rest: seq<byte>)
    requires |pieces| == |sizes| && Tells(pieces, value, sizes)
    requires ReadVintSize(first + (Flatten(pieces) + rest)) == Some(Vint(value, |first|))
    ensures EbmlTable(first + Flatten(pieces) + rest, |sizes| + 1) ==
            Some(Table([value] + sizes, |first + Flatten(pieces)|))
  {
    hide *;
    var tail := Flatten(pieces) + rest;
    Regroup(first, Flatten(pieces), rest);
    Dropped(first, tail);
    EbmlSizesInverse(pieces, value, sizes, rest);
    EbmlTableIs(first + tail, Vint(value, |first|), Table(sizes, |Flatten(pieces)|));
  }

  lemma {:induction false} EbmlTableIs(b: seq<byte>, first: Vint, rest: Table)
    requires ReadVintSize(b) == Some(first)
    requires EbmlSizes(b[first.length..], first.value, |rest.sizes|) == Some(rest)
    ensures EbmlTable(b, |rest.sizes| + 1) == Some(Table([first.value] + rest.sizes, first.length + rest.length))
  {
    hide ReadVintSize, EbmlSizes;
  }

  lemma {:induction false} EbmlTableInverse(sizes: seq<nat>, lengths: seq<nat>, rest: seq<byte>)
    requires EbmlEncodes(sizes, lengths) && |sizes| > 1
    ensures var bytes := EbmlHeaderTable(sizes, lengths);
            EbmlTable(bytes + rest, |sizes| - 1) == Some(Table(sizes[..|sizes| - 1], |bytes|))
  {
    var middle := sizes[1..|sizes| - 1];
    var pieces := EbmlPieces(sizes[0], middle, lengths[1..]);
    PiecesTell(sizes[0], middle, lengths[1..]);
    VintRoundTrip(sizes[0], lengths[0], Flatten(pieces) + rest);
    EbmlTableJoins(EncodeVint(sizes[0], lengths[0]), sizes[0], pieces, middle, rest);
    assert [sizes[0]] + middle == sizes[..|sizes| - 1];
  }

  lemma {:induction false} EbmlLaceJoins(before: seq<byte>, table: seq<byte>, sizes: seq<nat>, data: seq<byte>)
    requires 1 < |sizes| <= 256 && |data| == Sum(sizes)
    requires EbmlTable(table + data, |sizes| - 1) == Some(Table(sizes[..|sizes| - 1], |table|))
    ensures var b := before + ([|sizes| - 1] + table) + data;
            EbmlLace(b, |b|, |before|) == Some(Lace(sizes, |before| + 1 + |table|))
  {
    hide EbmlTable, Sum;
    var b := before + ([|sizes| - 1] + table) + data;
    assert b[|before|] as int == |sizes| - 1 && b[|before| + 1..] == table + data;
    LastIsRest(|before| + 1, sizes, |table|, |b|);
  }

  lemma {:induction false} EbmlSingle(before: seq<byte>, size: nat, data: seq<byte>)
    requires |data| == size
    ensures var b := before + [0] + data; EbmlLace(b, |b|, |before|) == Some(Lace([size], |before| + 1))
  {
    var b := before + [0] + data;
    assert b[|before|] as int == 0;
  }

  lemma {:induction false} EbmlOneInverse(before: seq<byte>, sizes: seq<nat>, lengths: seq<nat>, data: seq<byte>)
    requires EbmlEncodes(sizes, lengths) && |sizes| == 1 && |data| == Sum(sizes)
    ensures var b := before + EbmlHeader(sizes, lengths) + data;
            EbmlLace(b, |b|, |before|) == Some(Lace(sizes, |before| + |EbmlHeader(sizes, lengths)|))
  {
    assert sizes == [sizes[0]] && EbmlHeader(sizes, lengths) == [0];
    OneSum(sizes[0]);
    EbmlSingle(before, sizes[0], data);
  }

  lemma {:induction false} EbmlManyInverse(before: seq<byte>, sizes: seq<nat>, lengths: seq<nat>, data: seq<byte>)
    requires EbmlEncodes(sizes, lengths) && |sizes| > 1 && |data| == Sum(sizes)
    ensures var table := EbmlHeaderTable(sizes, lengths);
            var b := before + ([|sizes| - 1] + table) + data;
            EbmlLace(b, |b|, |before|) == Some(Lace(sizes, |before| + 1 + |table|))
  {
    hide EbmlLace, EbmlTable, EbmlHeaderTable, EbmlFits, FitsVint, Sum;
    EbmlTableInverse(sizes, lengths, data);
    EbmlLaceJoins(before, EbmlHeaderTable(sizes, lengths), sizes, data);
  }

  /** EBML lacing parses back to the sizes, whatever lengths the encoder chose. */
  lemma {:induction false} EbmlInverse(before: seq<byte>, sizes: seq<nat>, lengths: seq<nat>, data: seq<byte>)
    requires EbmlEncodes(sizes, lengths) && |data| == Sum(sizes)
    ensures var header := EbmlHeader(sizes, lengths);
            var b := before + header + data;
            EbmlLace(b, |b|, |before|) == Some(Lace(sizes, |before| + |header|))
  {
    hide EbmlLace, EbmlHeaderTable, EbmlFits, FitsVint, Sum;
    if |sizes| == 1 {
      EbmlOneInverse(before, sizes, lengths, data);
    } else {
      EbmlManyInverse(before, sizes, lengths, data);
    }
  }
}
