/** The checksum behind the program tables: the register the code shifts, and what a receiver's check of it says. */
module Checksum {
  import opened Machine

  const CRC_START: bv32 := 0xffff_ffff

  /** One bit of the checksum: shifts, and folds the polynomial in when a one falls out. */
  function CrcBit(crc: bv32): bv32 {
    if crc & 0x8000_0000 != 0 then (crc << 1) ^ 0x04c1_1db7 else crc << 1
  }

  function CrcBits(crc: bv32, n: nat): bv32
    decreases n
  {
    if n == 0 then crc else CrcBits(CrcBit(crc), n - 1)
  }

  function Bits(b: byte): bv8 { b as bv8 }

  function Number(b: bv8): byte { b as int }

  function InTop(b: bv8): bv32 { (b as bv32) << 24 }

  function Top(crc: bv32): bv8 { (crc >> 24) as bv8 }

  /** The register without its top byte, one byte up. */
  function Below(crc: bv32): bv32 { crc << 8 }

  function Crc32Mpeg(crc: bv32, bytes: seq<byte>): bv32
    decreases |bytes|
  {
    if bytes == [] then crc else Crc32Mpeg(CrcBits(crc ^ InTop(Bits(bytes[0])), 8), bytes[1..])
  }

  function CrcBytes(crc: bv32): (b: seq<byte>)
    ensures |b| == 4
  {
    [Number(Top(crc)), Number(Top(Below(crc))), Number(Top(Below(Below(crc)))), Number(Top(Below(Below(Below(crc)))))]
  }

  /** A section and its checksum, highest byte first. */
  function WithCrc(section: seq<byte>): (b: seq<byte>)
    ensures |b| == |section| + 4
  {
    section + CrcBytes(Crc32Mpeg(CRC_START, section))
  }

  // ----- what a receiver's check says -----

  lemma {:induction false} CrcAppend(crc: bv32, a: seq<byte>, b: seq<byte>)
    ensures Crc32Mpeg(crc, a + b) == Crc32Mpeg(Crc32Mpeg(crc, a), b)
    decreases |a|
  {
    hide CrcBits, InTop, Bits;
    if a == [] {
      assert a + b == b;
    } else {
      assert (a + b)[1..] == a[1..] + b;
      CrcAppend(CrcBits(crc ^ InTop(Bits(a[0])), 8), a[1..], b);
    }
  }

  /** The bit that falls out comes back as the lowest one, so a step can be undone. */
  function UndoBit(crc: bv32): bv32 {
    if crc & 1 != 0 then ((crc ^ 0x04c1_1db7) >> 1) | 0x8000_0000 else crc >> 1
  }

  lemma {:induction false} ZeroUndone(x: bv32)
    requires x & 0x8000_0000 == 0
    ensures (x << 1) & 1 == 0 && (x << 1) >> 1 == x
  {
  }

  lemma {:induction false} OneUndone(x: bv32)
    requires x & 0x8000_0000 != 0
    ensures var r := (x << 1) ^ 0x04c1_1db7; r & 1 != 0 && ((r ^ 0x04c1_1db7) >> 1) | 0x8000_0000 == x
  {
  }

  lemma {:induction false} BitUndoneWhenZero(x: bv32)
    requires x & 0x8000_0000 == 0
    ensures UndoBit(CrcBit(x)) == x
  {
    ZeroUndone(x);
  }

  lemma {:induction false} BitUndoneWhenOne(x: bv32)
    requires x & 0x8000_0000 != 0
    ensures UndoBit(CrcBit(x)) == x
  {
    OneUndone(x);
  }

  lemma {:induction false} BitUndone(x: bv32)
    ensures UndoBit(CrcBit(x)) == x
  {
    hide CrcBit, UndoBit;
    if x & 0x8000_0000 == 0 { BitUndoneWhenZero(x); } else { BitUndoneWhenOne(x); }
  }

  /** No two registers agree after the same bits. */
  lemma {:induction false} BitsInjective(x: bv32, y: bv32, n: nat)
    requires CrcBits(x, n) == CrcBits(y, n)
    ensures x == y
    decreases n
  {
    if n > 0 {
      hide CrcBit, UndoBit;
      BitsInjective(CrcBit(x), CrcBit(y), n - 1);
      BitUndone(x);
      BitUndone(y);
    }
  }

  lemma {:induction false} NoBits(x: bv32)
    ensures CrcBits(x, 0) == x
  {
  }

  function Doubled(x: bv32): bv32 { x << 1 }

  predicate TopClear(x: bv32) { x & 0x8000_0000 == 0 }

  lemma {:induction false} ZeroBit(x: bv32, n: nat)
    requires n > 0 && TopClear(x)
    ensures CrcBits(x, n) == CrcBits(Doubled(x), n - 1)
  {
  }

  /** With the top byte clear, the top bit stays clear for eight steps. */
  lemma {:induction false} EightDoubled(x: bv32)
    requires x < 0x100_0000
    ensures var a := x; var b := Doubled(a); var c := Doubled(b); var d := Doubled(c);
            TopClear(a) && TopClear(b) && TopClear(c) && TopClear(d)
    ensures var e := Doubled(Doubled(Doubled(Doubled(x))));
            var f := Doubled(e); var g := Doubled(f); var h := Doubled(g);
            TopClear(e) && TopClear(f) && TopClear(g) && TopClear(h) && Doubled(h) == Below(x)
  {
  }

  lemma {:induction false} FourZeros(x: bv32, n: nat)
    requires n >= 4
    requires var b := Doubled(x); var c := Doubled(b); TopClear(x) && TopClear(b) && TopClear(c) && TopClear(Doubled(c))
    ensures CrcBits(x, n) == CrcBits(Doubled(Doubled(Doubled(Doubled(x)))), n - 4)
  {
    hide CrcBits, Doubled, TopClear;
    ZeroBit(x, n);
    ZeroBit(Doubled(x), n - 1);
    ZeroBit(Doubled(Doubled(x)), n - 2);
    ZeroBit(Doubled(Doubled(Doubled(x))), n - 3);
  }

  /** A register whose top byte is clear is shifted out whole. */
  lemma {:induction false} ZerosShift(x: bv32)
    requires x < 0x100_0000
    ensures CrcBits(x, 8) == Below(x)
  {
    hide CrcBits, Doubled, TopClear, Below;
    EightDoubled(x);
    FourZeros(x, 8);
    FourZeros(Doubled(Doubled(Doubled(Doubled(x)))), 4);
    NoBits(Below(x));
  }

  function Mixed(crc: bv32, b: bv8): bv32 { crc ^ InTop(b) }

  function Fed(crc: bv32, b: byte): bv32 { CrcBits(Mixed(crc, Bits(b)), 8) }

  predicate LowByteClear(x: bv32) { x & 0xff == 0 }

  function Lowered(x: bv32): bv32 { x >> 8 }

  lemma {:induction false} Unlowered(rest: bv32)
    requires LowByteClear(rest)
    ensures Lowered(rest) < 0x100_0000 && Below(Lowered(rest)) == rest
  {
  }

  lemma {:induction false} MixedTop(crc: bv32)
    ensures Mixed(crc, Top(crc)) == Lowered(Below(crc)) && LowByteClear(Below(crc))
  {
  }

  lemma {:induction false} TopCleared(crc: bv32, b: bv8, rest: bv32)
    requires Mixed(crc, b) == Lowered(rest)
    ensures b == Top(crc)
  {
  }

  lemma {:induction false} XorClears(crc: bv32, b: bv8, rest: bv32)
    requires LowByteClear(rest)
    ensures Mixed(crc, b) == Lowered(rest) <==> b == Top(crc) && Below(crc) == rest
  {
    hide Mixed, Lowered, Top, Below, LowByteClear;
    MixedTop(crc);
    if Mixed(crc, b) == Lowered(rest) {
      TopCleared(crc, b, rest);
      Unlowered(rest);
      Unlowered(Below(crc));
    }
  }

  lemma {:induction false} BitsBack(b: bv8)
    ensures Bits(Number(b)) == b
  {
  }

  lemma {:induction false} NextNumber(v: bv8)
    requires Number(v) < 255
    ensures Number(v + 1) == Number(v) + 1
  {
  }

  /** Every byte is the number of some eight bits. */
  lemma {:induction false} SomeBits(b: byte) returns (v: bv8)
    ensures Number(v) == b
    decreases b
  {
    if b == 0 {
      v := 0;
    } else {
      hide Number;
      var u := SomeBits(b - 1);
      NextNumber(u);
      v := u + 1;
    }
  }

  lemma {:induction false} NumberBack(b: byte)
    ensures Number(Bits(b)) == b
  {
    hide Number, Bits;
    var v := SomeBits(b);
    BitsBack(v);
  }

  lemma {:induction false} ShiftedIff(x: bv32, rest: bv32)
    requires LowByteClear(rest)
    ensures CrcBits(x, 8) == rest <==> x == Lowered(rest)
  {
    hide CrcBits, Below, Lowered, LowByteClear;
    Unlowered(rest);
    ZerosShift(Lowered(rest));
    if CrcBits(x, 8) == rest { BitsInjective(x, Lowered(rest), 8); }
  }

  lemma {:induction false} NumberIs(b: byte, c: bv8)
    ensures b == Number(c) <==> Bits(b) == c
  {
    hide Bits, Number;
    NumberBack(b);
    BitsBack(c);
  }

  /** Feeding a byte leaves `rest` exactly when it is the register's top byte and `rest` what is below it. */
  lemma {:induction false} FedIff(crc: bv32, b: byte, rest: bv32)
    requires LowByteClear(rest)
    ensures Fed(crc, b) == rest <==> b == Number(Top(crc)) && Below(crc) == rest
  {
    hide CrcBits, Mixed, Top, Below, Lowered, LowByteClear, Bits, Number;
    ShiftedIff(Mixed(crc, Bits(b)), rest);
    XorClears(crc, Bits(b), rest);
    NumberIs(b, Top(crc));
  }

  lemma {:induction false} BelowClears(crc: bv32)
    ensures LowByteClear(Below(crc)) && LowByteClear(0) && Below(Below(Below(Below(crc)))) == 0
  {
  }

  lemma {:induction false} ClearedFrom(one: bv32, two: bv32, three: bv32)
    ensures Below(three) == 0 ==> LowByteClear(three)
    ensures Below(three) == 0 && Below(two) == three ==> LowByteClear(two)
    ensures Below(three) == 0 && Below(two) == three && Below(one) == two ==> LowByteClear(one)
  {
  }

  /** Feeding `bytes` of four to a register. */
  lemma {:induction false} FourBytes(crc: bv32, t: seq<byte>)
    requires |t| == 4
    ensures Crc32Mpeg(crc, t) == Fed(Fed(Fed(Fed(crc, t[0]), t[1]), t[2]), t[3])
  {
    hide CrcBits, InTop, Bits;
    OneByte(crc, t);
    OneByte(Fed(crc, t[0]), t[1..]);
    OneByte(Fed(Fed(crc, t[0]), t[1]), t[2..]);
    OneByte(Fed(Fed(Fed(crc, t[0]), t[1]), t[2]), t[3..]);
  }

  lemma {:induction false} OneByte(crc: bv32, t: seq<byte>)
    requires t != []
    ensures Crc32Mpeg(crc, t) == Crc32Mpeg(Fed(crc, t[0]), t[1..])
  {
    hide CrcBits, InTop, Bits;
  }

  lemma {:induction false} FourClear(crc: bv32)
    ensures var t := CrcBytes(crc); Fed(Fed(Fed(Fed(crc, t[0]), t[1]), t[2]), t[3]) == 0
  {
    hide Fed, Top, Below, LowByteClear, Number;
    var one := Below(crc);
    var two := Below(one);
    var three := Below(two);
    BelowClears(crc);
    BelowClears(one);
    BelowClears(two);
    FedIff(crc, Number(Top(crc)), one);
    FedIff(one, Number(Top(one)), two);
    FedIff(two, Number(Top(two)), three);
    FedIff(three, Number(Top(three)), 0);
  }

  lemma {:induction false} ClearedByFour(crc: bv32, t: seq<byte>)
    requires |t| == 4 && Fed(Fed(Fed(Fed(crc, t[0]), t[1]), t[2]), t[3]) == 0
    ensures t == CrcBytes(crc)
  {
    hide Fed, Top, Below, LowByteClear, Number;
    var one := Fed(crc, t[0]);
    var two := Fed(one, t[1]);
    var three := Fed(two, t[2]);
    BelowClears(crc);
    ClearedFrom(one, two, three);
    FedIff(three, t[3], 0);
    FedIff(two, t[2], three);
    FedIff(one, t[1], two);
    FedIff(crc, t[0], one);
  }

  /** Four bytes clear a register exactly when they are its four bytes. */
  lemma {:induction false} FourClearIff(crc: bv32, t: seq<byte>)
    requires |t| == 4
    ensures Crc32Mpeg(crc, t) == 0 <==> t == CrcBytes(crc)
  {
    hide Crc32Mpeg, Fed, CrcBytes;
    FourBytes(crc, t);
    FourClear(crc);
    if Crc32Mpeg(crc, t) == 0 { ClearedByFour(crc, t); }
  }

  /** A receiver's check over a section and its last four bytes passes exactly when those are the section's checksum. */
  lemma {:induction false} CheckPassesIff(section: seq<byte>, t: seq<byte>)
    requires |t| == 4
    ensures Crc32Mpeg(CRC_START, section + t) == 0 <==> section + t == WithCrc(section)
  {
    hide Crc32Mpeg, CrcBytes;
    var crc := Crc32Mpeg(CRC_START, section);
    CrcAppend(CRC_START, section, t);
    FourClearIff(crc, t);
    assert (section + t)[|section|..] == t && WithCrc(section)[|section|..] == CrcBytes(crc);
  }

  // ----- the loops -----

  method CrcOf(bytes: seq<byte>) returns (crc: bv32)
    ensures crc == Crc32Mpeg(CRC_START, bytes)
  {
    hide CrcBits, InTop, Bits;
    crc := CRC_START;
    assert bytes[0..] == bytes;
    for i := 0 to |bytes|
      invariant Crc32Mpeg(CRC_START, bytes) == Crc32Mpeg(crc, bytes[i..])
    {
      OneByte(crc, bytes[i..]);
      assert bytes[i..][1..] == bytes[i + 1..];
      crc := Feed(crc, bytes[i]);
    }
  }

  /** The eight steps of one byte. */
  method Feed(crc: bv32, b: byte) returns (r: bv32)
    ensures r == Fed(crc, b)
  {
    hide InTop, Bits, CrcBit;
    r := Mixed(crc, Bits(b));
    var left: nat := 8;
    while left > 0
      invariant CrcBits(r, left) == Fed(crc, b)
    {
      r := CrcBit(r);
      left := left - 1;
    }
  }

  method AppendCrc(section: seq<byte>) returns (r: seq<byte>)
    ensures r == WithCrc(section)
  {
    var crc := CrcOf(section);
    r := section + CrcBytes(crc);
  }

  // ----- what a receiver notices -----

  function Xor(a: bv32, b: bv32): bv32 { a ^ b }

  lemma {:induction false} ShiftLinear(x: bv32, y: bv32)
    ensures (x ^ y) << 1 == (x << 1) ^ (y << 1)
  {
  }

  predicate TopSet(x: bv32) { x & 0x8000_0000 != 0 }

  lemma {:induction false} TopLinear(x: bv32, y: bv32)
    ensures TopSet(Xor(x, y)) <==> TopSet(x) != TopSet(y)
  {
  }

  function Folded(x: bv32): bv32 { x ^ 0x04c1_1db7 }

  lemma {:induction false} BitIs(x: bv32)
    ensures CrcBit(x) == if TopSet(x) then Folded(Doubled(x)) else Doubled(x)
  {
  }

  lemma {:induction false} DoubledLinear(x: bv32, y: bv32)
    ensures Doubled(Xor(x, y)) == Xor(Doubled(x), Doubled(y))
  {
    ShiftLinear(x, y);
  }

  lemma {:induction false} FoldedBoth(x: bv32, y: bv32)
    ensures Xor(Folded(x), Folded(y)) == Xor(x, y)
  {
  }

  lemma {:induction false} FoldedLeft(x: bv32, y: bv32)
    ensures Xor(Folded(x), y) == Folded(Xor(x, y))
  {
  }

  lemma {:induction false} FoldedRight(x: bv32, y: bv32)
    ensures Xor(x, Folded(y)) == Folded(Xor(x, y))
  {
  }

  lemma {:induction false} BitLinear(x: bv32, y: bv32)
    ensures CrcBit(Xor(x, y)) == Xor(CrcBit(x), CrcBit(y))
  {
    hide CrcBit, TopSet, Folded, Doubled, Xor;
    BitIs(x);
    BitIs(y);
    BitIs(Xor(x, y));
    TopLinear(x, y);
    DoubledLinear(x, y);
    FoldedBoth(Doubled(x), Doubled(y));
    FoldedLeft(Doubled(x), Doubled(y));
    FoldedRight(Doubled(x), Doubled(y));
  }

  lemma {:induction false} BitsLinear(x: bv32, y: bv32, n: nat)
    ensures CrcBits(Xor(x, y), n) == Xor(CrcBits(x, n), CrcBits(y, n))
    decreases n
  {
    hide CrcBit, Xor;
    if n > 0 {
      BitLinear(x, y);
      BitsLinear(CrcBit(x), CrcBit(y), n - 1);
    }
  }

  function Xor8(a: bv8, b: bv8): bv8 { a ^ b }

  /** Where two byte strings differ. */
  function Difference(a: seq<byte>, b: seq<byte>): (d: seq<byte>)
    requires |a| == |b|
    ensures |d| == |a|
  {
    if a == [] then [] else [Number(Xor8(Bits(a[0]), Bits(b[0])))] + Difference(a[1..], b[1..])
  }

  lemma {:induction false} MixedLinear(x: bv32, y: bv32, a: bv8, b: bv8)
    ensures Mixed(Xor(x, y), Xor8(a, b)) == Xor(Mixed(x, a), Mixed(y, b))
  {
  }

  lemma {:induction false} FedLinear(x: bv32, y: bv32, a: byte, b: byte)
    ensures Fed(Xor(x, y), Number(Xor8(Bits(a), Bits(b)))) == Xor(Fed(x, a), Fed(y, b))
  {
    hide CrcBits, Mixed, Bits, Number, Xor8, Xor;
    BitsBack(Xor8(Bits(a), Bits(b)));
    MixedLinear(x, y, Bits(a), Bits(b));
    BitsLinear(Mixed(x, Bits(a)), Mixed(y, Bits(b)), 8);
  }

  /** The checksum of a difference is the difference of the checksums. */
  lemma {:induction false} CrcLinear(x: bv32, y: bv32, a: seq<byte>, b: seq<byte>)
    requires |a| == |b|
    ensures Crc32Mpeg(Xor(x, y), Difference(a, b)) == Xor(Crc32Mpeg(x, a), Crc32Mpeg(y, b))
    decreases |a|
  {
    if a != [] {
      hide Crc32Mpeg, Fed, Xor, Number, Bits, Xor8;
      OneByte(x, a);
      OneByte(y, b);
      OneByte(Xor(x, y), Difference(a, b));
      FedLinear(x, y, a[0], b[0]);
      CrcLinear(Fed(x, a[0]), Fed(y, b[0]), a[1..], b[1..]);
    }
  }

  lemma {:induction false} CrcInjective(x: bv32, y: bv32, bytes: seq<byte>)
    requires Crc32Mpeg(x, bytes) == Crc32Mpeg(y, bytes)
    ensures x == y
    decreases |bytes|
  {
    if bytes != [] {
      hide Crc32Mpeg, CrcBits, Mixed, Bits;
      OneByte(x, bytes);
      OneByte(y, bytes);
      CrcInjective(Fed(x, bytes[0]), Fed(y, bytes[0]), bytes[1..]);
      BitsInjective(Mixed(x, Bits(bytes[0])), Mixed(y, Bits(bytes[0])), 8);
      MixedInjective(x, y, Bits(bytes[0]));
    }
  }

  lemma {:induction false} MixedInjective(x: bv32, y: bv32, b: bv8)
    requires Mixed(x, b) == Mixed(y, b)
    ensures x == y
  {
  }

  lemma {:induction false} NoDifference(a: byte, b: byte)
    requires Number(Xor8(Bits(a), Bits(b))) == Number(0)
    ensures a == b
  {
    hide Bits, Number;
    BitsBack(Xor8(Bits(a), Bits(b)));
    BitsBack(0);
    NumberBack(a);
    NumberBack(b);
  }

  lemma {:induction false} ZeroBytes()
    ensures CrcBytes(0) == [Number(0), Number(0), Number(0), Number(0)]
  {
    assert Top(0) == 0 && Below(0) == 0;
  }

  /** From one register, different four bytes lead to different registers. */
  lemma {:induction false} FourInjective(crc: bv32, a: seq<byte>, b: seq<byte>)
    requires |a| == |b| == 4 && Crc32Mpeg(crc, a) == Crc32Mpeg(crc, b)
    ensures a == b
  {
    hide Crc32Mpeg, CrcBytes, Number, Bits, Xor8;
    var d := Difference(a, b);
    CrcLinear(crc, crc, a, b);
    assert Xor(crc, crc) == 0 && Xor(Crc32Mpeg(crc, a), Crc32Mpeg(crc, b)) == 0;
    FourClearIff(0, d);
    ZeroBytes();
    forall i | 0 <= i < 4 ensures a[i] == b[i] {
      DifferenceAt(a, b, i);
      NoDifference(a[i], b[i]);
    }
  }

  lemma {:induction false} DifferenceAt(a: seq<byte>, b: seq<byte>, i: nat)
    requires |a| == |b| && i < |a|
    ensures Difference(a, b)[i] == Number(Xor8(Bits(a[i]), Bits(b[i])))
    decreases i
  {
    hide Number, Bits, Xor8;
    if i > 0 { DifferenceAt(a[1..], b[1..], i - 1); }
  }

  /** Damage within any four bytes of a section with its checksum makes a receiver's check fail. */
  lemma {:induction false} DamageIsNoticed(section: seq<byte>, at: nat, damaged: seq<byte>)
    requires |damaged| == 4 && at + 4 <= |WithCrc(section)| && damaged != WithCrc(section)[at..at + 4]
    ensures var b := WithCrc(section); Crc32Mpeg(CRC_START, b[..at] + damaged + b[at + 4..]) != 0
  {
    hide Crc32Mpeg, WithCrc;
    var b := WithCrc(section);
    var crc := Crc32Mpeg(CRC_START, b[..at]);
    assert b == b[..at] + b[at..at + 4] + b[at + 4..];
    Residue(section);
    Split(b[..at], b[at..at + 4], b[at + 4..]);
    Split(b[..at], damaged, b[at + 4..]);
    if Crc32Mpeg(CRC_START, b[..at] + damaged + b[at + 4..]) == 0 {
      CrcInjective(Crc32Mpeg(crc, b[at..at + 4]), Crc32Mpeg(crc, damaged), b[at + 4..]);
      FourInjective(crc, b[at..at + 4], damaged);
    }
  }

  lemma {:induction false} Split(a: seq<byte>, b: seq<byte>, c: seq<byte>)
    ensures Crc32Mpeg(CRC_START, a + b + c) == Crc32Mpeg(Crc32Mpeg(Crc32Mpeg(CRC_START, a), b), c)
  {
    hide Crc32Mpeg;
    CrcAppend(CRC_START, a + b, c);
    CrcAppend(CRC_START, a, b);
  }

  /** A section with its checksum leaves zero. */
  lemma {:induction false} Residue(section: seq<byte>)
    ensures Crc32Mpeg(CRC_START, WithCrc(section)) == 0
  {
    hide Crc32Mpeg, CrcBytes;
    CheckPassesIff(section, CrcBytes(Crc32Mpeg(CRC_START, section)));
  }
}
