/** The decoder of ISO/IEC 13818-1 annex A: 32 one-bit cells that a section is clocked through, bit by bit, and that it
    leaves all zero exactly when its last four bytes are its checksum. */
module CrcReceiver {
  import opened Machine
  import opened Checksum

  /** The terms of the generator below the highest, x to the 32nd. */
  const TERMS: set<nat> := {26, 23, 22, 16, 12, 11, 10, 8, 7, 5, 4, 2, 1, 0}

  /** One bit in: what leaves the last cell, added to the bit, goes to the cell of every term. */
  function Clocked(cells: seq<bool>, bit: bool): (r: seq<bool>)
    requires |cells| == 32
    ensures |r| == 32
    ensures forall e :: 0 <= e < 32 ==> r[e] == ((e > 0 && cells[e - 1]) != (cells[31] != bit && e in TERMS))
  {
    seq(32, e requires 0 <= e < 32 => (e > 0 && cells[e - 1]) != (cells[31] != bit && e in TERMS))
  }

  function ClockedAll(cells: seq<bool>, bits: seq<bool>): (r: seq<bool>)
    requires |cells| == 32
    ensures |r| == 32
    decreases |bits|
  {
    if bits == [] then cells else ClockedAll(Clocked(cells, bits[0]), bits[1..])
  }

  /** The bits of a byte, highest first. */
  function BitsOf(b: byte): seq<bool> {
    [b / 128 % 2 == 1, b / 64 % 2 == 1, b / 32 % 2 == 1, b / 16 % 2 == 1, b / 8 % 2 == 1, b / 4 % 2 == 1,
     b / 2 % 2 == 1, b % 2 == 1]
  }

  function Received(cells: seq<bool>, bytes: seq<byte>): (r: seq<bool>)
    requires |cells| == 32
    ensures |r| == 32
    decreases |bytes|
  {
    if bytes == [] then cells else Received(ClockedAll(cells, BitsOf(bytes[0])), bytes[1..])
  }

  /** From all ones, a section leaves all zeros. */
  predicate Accepts(section: seq<byte>) { Received(seq(32, _ => true), section) == seq(32, _ => false) }

  // ----- the register as cells -----

  predicate Has(x: bv32, mask: bv32) { x & mask != 0 }

  function Mask(e: nat): bv32 { if e == 0 then 1 else Doubled(Mask(e - 1)) }

  const GENERATOR: bv32 := 0x04c1_1db7

  predicate OneBit(m: bv32) { m != 0 && m & (m - 1) == 0 }

  function Cells(x: bv32): (c: seq<bool>)
    ensures |c| == 32
    ensures forall e :: 0 <= e < 32 ==> c[e] == Has(x, Mask(e))
  {
    seq(32, e requires 0 <= e < 32 => Has(x, Mask(e)))
  }

  /** A cell's mask has one bit, the top one only for the last cell, and picks the generator's term. */
  predicate GoodMask(e: nat) {
    OneBit(Mask(e)) && (e < 31 <==> TopClear(Mask(e))) && (Has(GENERATOR, Mask(e)) <==> e in TERMS)
  }

  lemma {:induction false} FirstMasks()
    ensures Mask(0) == 1 && Mask(1) == 2 && Mask(2) == 4 && Mask(3) == 8
    ensures Mask(4) == 0x10 && Mask(5) == 0x20 && Mask(6) == 0x40 && Mask(7) == 0x80
  {
    assert Mask(1) == Doubled(1) == 2;
    assert Mask(2) == Doubled(2) == 4;
    assert Mask(3) == Doubled(4) == 8;
    assert Mask(4) == Doubled(8) == 0x10;
    assert Mask(5) == Doubled(0x10) == 0x20;
    assert Mask(6) == Doubled(0x20) == 0x40;
    assert Mask(7) == Doubled(0x40) == 0x80;
  }

  lemma {:induction false} SecondMasks()
    ensures Mask(8) == 0x100 && Mask(9) == 0x200 && Mask(10) == 0x400 && Mask(11) == 0x800
    ensures Mask(12) == 0x1000 && Mask(13) == 0x2000 && Mask(14) == 0x4000 && Mask(15) == 0x8000
  {
    FirstMasks();
    assert Mask(8) == Doubled(0x80) == 0x100;
    assert Mask(9) == Doubled(0x100) == 0x200;
    assert Mask(10) == Doubled(0x200) == 0x400;
    assert Mask(11) == Doubled(0x400) == 0x800;
    assert Mask(12) == Doubled(0x800) == 0x1000;
    assert Mask(13) == Doubled(0x1000) == 0x2000;
    assert Mask(14) == Doubled(0x2000) == 0x4000;
    assert Mask(15) == Doubled(0x4000) == 0x8000;
  }

  lemma {:induction false} ThirdMasks()
    ensures Mask(16) == 0x1_0000 && Mask(17) == 0x2_0000 && Mask(18) == 0x4_0000 && Mask(19) == 0x8_0000
    ensures Mask(20) == 0x10_0000 && Mask(21) == 0x20_0000 && Mask(22) == 0x40_0000 && Mask(23) == 0x80_0000
  {
    SecondMasks();
    assert Mask(16) == Doubled(0x8000) == 0x1_0000;
    assert Mask(17) == Doubled(0x1_0000) == 0x2_0000;
    assert Mask(18) == Doubled(0x2_0000) == 0x4_0000;
    assert Mask(19) == Doubled(0x4_0000) == 0x8_0000;
    assert Mask(20) == Doubled(0x8_0000) == 0x10_0000;
    assert Mask(21) == Doubled(0x10_0000) == 0x20_0000;
    assert Mask(22) == Doubled(0x20_0000) == 0x40_0000;
    assert Mask(23) == Doubled(0x40_0000) == 0x80_0000;
  }

  lemma {:induction false} LastMasks()
    ensures Mask(24) == 0x100_0000 && Mask(25) == 0x200_0000 && Mask(26) == 0x400_0000 && Mask(27) == 0x800_0000
    ensures Mask(28) == 0x1000_0000 && Mask(29) == 0x2000_0000 && Mask(30) == 0x4000_0000 && Mask(31) == 0x8000_0000
  {
    ThirdMasks();
    assert Mask(24) == Doubled(0x80_0000) == 0x100_0000;
    assert Mask(25) == Doubled(0x100_0000) == 0x200_0000;
    assert Mask(26) == Doubled(0x200_0000) == 0x400_0000;
    assert Mask(27) == Doubled(0x400_0000) == 0x800_0000;
    assert Mask(28) == Doubled(0x800_0000) == 0x1000_0000;
    assert Mask(29) == Doubled(0x1000_0000) == 0x2000_0000;
    assert Mask(30) == Doubled(0x2000_0000) == 0x4000_0000;
    assert Mask(31) == Doubled(0x4000_0000) == 0x8000_0000;
  }

  lemma {:induction false} FirstTerms(e: nat)
    requires 0 <= e < 8
    ensures GoodMask(e)
  {
    FirstMasks();
  }

  lemma {:induction false} SecondTerms(e: nat)
    requires 8 <= e < 16
    ensures GoodMask(e)
  {
    SecondMasks();
  }

  lemma {:induction false} ThirdTerms(e: nat)
    requires 16 <= e < 24
    ensures GoodMask(e)
  {
    ThirdMasks();
  }

  lemma {:induction false} LastTerms(e: nat)
    requires 24 <= e < 32
    ensures GoodMask(e)
  {
    LastMasks();
  }

  lemma {:induction false} MaskIsGood(e: nat)
    requires e < 32
    ensures GoodMask(e)
  {
    hide GoodMask;
    if e < 8 {
      FirstTerms(e);
    } else if e < 16 {
      SecondTerms(e);
    } else if e < 24 {
      ThirdTerms(e);
    } else {
      LastTerms(e);
    }
  }

  function And(x: bv32, m: bv32): bv32 { x & m }

  lemma {:induction false} AllOrNone(x: bv32, m: bv32)
    requires OneBit(m)
    ensures And(x, m) == 0 || And(x, m) == m
  {
  }

  lemma {:induction false} AndXor(x: bv32, y: bv32, m: bv32)
    ensures And(Xor(x, y), m) == Xor(And(x, m), And(y, m))
  {
  }

  lemma {:induction false} XorZero(m: bv32)
    ensures Xor(0, m) == m && Xor(m, 0) == m && Xor(m, m) == 0
  {
  }

  lemma {:induction false} HasIs(x: bv32, m: bv32)
    ensures Has(x, m) <==> And(x, m) != 0
  {
  }

  lemma {:induction false} OneIsSome(m: bv32)
    requires OneBit(m)
    ensures m != 0
  {
  }

  lemma {:induction false} XorHas(x: bv32, y: bv32, m: bv32)
    requires OneBit(m)
    ensures Has(Xor(x, y), m) <==> Has(x, m) != Has(y, m)
  {
    hide Has, And, Xor, OneBit;
    AllOrNone(x, m);
    AllOrNone(y, m);
    AndXor(x, y, m);
    XorZero(m);
    XorZero(0);
    HasIs(x, m);
    HasIs(y, m);
    HasIs(Xor(x, y), m);
    OneIsSome(m);
  }

  lemma {:induction false} DoubledHas(x: bv32, m: bv32)
    requires TopClear(m)
    ensures Has(Doubled(x), Doubled(m)) <==> Has(x, m)
  {
  }

  lemma {:induction false} LowestClear(x: bv32)
    ensures !Has(Doubled(x), 1)
  {
  }

  lemma {:induction false} FoldedIsXor(x: bv32)
    ensures Folded(x) == Xor(x, GENERATOR)
  {
  }

  /** The register of the code after one bit of input. */
  function Flipped(crc: bv32, bit: bool): bv32 { if bit then Xor(crc, 0x8000_0000) else crc }

  function Step(crc: bv32, bit: bool): bv32 { CrcBit(Flipped(crc, bit)) }

  lemma {:induction false} FlippedHas(crc: bv32, bit: bool, m: bv32)
    requires TopClear(m)
    ensures Has(Flipped(crc, bit), m) <==> Has(crc, m)
  {
  }

  lemma {:induction false} FlippedTop(crc: bv32, bit: bool)
    ensures TopSet(Flipped(crc, bit)) <==> Has(crc, 0x8000_0000) != bit
  {
  }

  lemma {:induction false} TopMask()
    ensures Mask(31) == 0x8000_0000 && Mask(0) == 1
  {
    hide Doubled;
    LastMasks();
  }

  lemma {:induction false} DoubledCell(x: bv32, e: nat)
    requires e < 32
    ensures Has(Doubled(x), Mask(e)) <==> e > 0 && Has(x, Mask(e - 1))
  {
    hide Has, Doubled, TopClear, OneBit;
    if e == 0 {
      LowestClear(x);
    } else {
      MaskIsGood(e - 1);
      DoubledHas(x, Mask(e - 1));
    }
  }

  lemma {:induction false} StepCell(crc: bv32, bit: bool, e: nat)
    requires e < 32
    ensures Has(Step(crc, bit), Mask(e)) <==>
            (e > 0 && Has(crc, Mask(e - 1))) != (Has(crc, Mask(31)) != bit && e in TERMS)
  {
    hide Has, Doubled, Folded, Flipped, TopSet, CrcBit, Xor, OneBit, Mask, TopClear;
    var y := Flipped(crc, bit);
    BitIs(y);
    FlippedTop(crc, bit);
    TopMask();
    MaskIsGood(e);
    FoldedIsXor(Doubled(y));
    XorHas(Doubled(y), GENERATOR, Mask(e));
    DoubledCell(y, e);
    if e > 0 {
      MaskIsGood(e - 1);
      FlippedHas(crc, bit, Mask(e - 1));
    }
  }

  lemma {:induction false} StepIsClocked(crc: bv32, bit: bool)
    ensures Cells(Step(crc, bit)) == Clocked(Cells(crc), bit)
  {
    hide Has, Mask, Step, Cells, Clocked;
    forall e | 0 <= e < 32 ensures Cells(Step(crc, bit))[e] == Clocked(Cells(crc), bit)[e] { StepCell(crc, bit, e); }
  }

  function Steps(crc: bv32, bits: seq<bool>): bv32
    decreases |bits|
  {
    if bits == [] then crc else Steps(Step(crc, bits[0]), bits[1..])
  }

  lemma {:induction false} StepsAreClocked(crc: bv32, bits: seq<bool>)
    ensures Cells(Steps(crc, bits)) == ClockedAll(Cells(crc), bits)
    decreases |bits|
  {
    hide Cells, Step, Clocked;
    if bits != [] {
      StepIsClocked(crc, bits[0]);
      StepsAreClocked(Step(crc, bits[0]), bits[1..]);
    }
  }

  // ----- a byte at once, and bit by bit -----

  predicate TopOf(b: bv8) { b & 0x80 != 0 }

  function Up(b: bv8): bv8 { b << 1 }

  lemma {:induction false} ShiftedIn(crc: bv32, b: bv8)
    ensures Doubled(Mixed(crc, b)) == Mixed(Doubled(Flipped(crc, TopOf(b))), Up(b))
  {
  }

  lemma {:induction false} TopIsFlipped(crc: bv32, b: bv8)
    ensures TopSet(Mixed(crc, b)) <==> TopSet(Flipped(crc, TopOf(b)))
  {
  }

  lemma {:induction false} FoldedMixed(x: bv32, b: bv8)
    ensures Folded(Mixed(x, b)) == Mixed(Folded(x), b)
  {
  }

  lemma {:induction false} BitIsStep(crc: bv32, b: bv8)
    ensures CrcBit(Mixed(crc, b)) == Mixed(Step(crc, TopOf(b)), Up(b))
  {
    hide CrcBit, Mixed, Flipped, Doubled, Folded, TopSet, TopOf, Up;
    var y := Flipped(crc, TopOf(b));
    ShiftedIn(crc, b);
    TopIsFlipped(crc, b);
    BitIs(Mixed(crc, b));
    BitIs(y);
    FoldedMixed(Doubled(y), Up(b));
  }

  /** The next `n` bits of a byte on their way out of the top. */
  function Tops(b: bv8, n: nat): seq<bool>
    decreases n
  {
    if n == 0 then [] else [TopOf(b)] + Tops(Up(b), n - 1)
  }

  function UpBy(b: bv8, n: nat): bv8
    decreases n
  {
    if n == 0 then b else UpBy(Up(b), n - 1)
  }

  lemma {:induction false} BitsAreSteps(crc: bv32, b: bv8, n: nat)
    ensures CrcBits(Mixed(crc, b), n) == Mixed(Steps(crc, Tops(b, n)), UpBy(b, n))
    decreases n
  {
    if n > 0 {
      hide CrcBit, Mixed, Step, TopOf, Up;
      BitIsStep(crc, b);
      BitsAreSteps(Step(crc, TopOf(b)), Up(b), n - 1);
      assert Tops(b, n)[1..] == Tops(Up(b), n - 1);
    }
  }

  lemma {:induction false} EightOut(crc: bv32, b: bv8)
    ensures Mixed(crc, UpBy(b, 8)) == crc
  {
    assert Up(Up(Up(Up(Up(Up(Up(Up(b)))))))) == 0;
    hide Up;
    assert UpBy(b, 8) == UpBy(Up(Up(Up(Up(b)))), 4) == 0;
  }

  lemma {:induction false} UpNumber(v: bv8)
    ensures Number(Up(v)) == Number(v) * 2 % 256 && (TopOf(v) <==> Number(v) / 128 % 2 == 1)
  {
  }

  lemma {:induction false} Halves(m: nat)
    requires m < 128
    ensures 2 * m / 128 == m / 64 && 2 * m / 64 == m / 32 && 2 * m / 32 == m / 16 && 2 * m / 16 == m / 8
    ensures 2 * m / 8 == m / 4 && 2 * m / 4 == m / 2 && 2 * m / 2 == m
  {
  }

  lemma {:induction false} TopAside(n: byte)
    ensures var m := n % 128;
            && m / 64 % 2 == n / 64 % 2 && m / 32 % 2 == n / 32 % 2 && m / 16 % 2 == n / 16 % 2
            && m / 8 % 2 == n / 8 % 2 && m / 4 % 2 == n / 4 % 2 && m / 2 % 2 == n / 2 % 2 && m % 2 == n % 2
  {
    if n >= 128 { TopDropped(n - 128); }
  }

  lemma {:induction false} TopDropped(m: nat)
    requires m < 128
    ensures (m + 128) % 128 == m
    ensures (m + 128) / 64 % 2 == m / 64 % 2 && (m + 128) / 32 % 2 == m / 32 % 2
    ensures (m + 128) / 16 % 2 == m / 16 % 2 && (m + 128) / 8 % 2 == m / 8 % 2
    ensures (m + 128) / 4 % 2 == m / 4 % 2 && (m + 128) / 2 % 2 == m / 2 % 2 && (m + 128) % 2 == m % 2
  {
    assert (m + 128) / 64 == m / 64 + 2 && (m + 128) / 32 == m / 32 + 4 && (m + 128) / 16 == m / 16 + 8;
    assert (m + 128) / 8 == m / 8 + 16 && (m + 128) / 4 == m / 4 + 32 && (m + 128) / 2 == m / 2 + 64;
  }

  /** Doubling a byte moves its digits up by one. */
  lemma {:induction false} DigitsMove(n: byte)
    ensures var d := n * 2 % 256;
            && d / 128 % 2 == n / 64 % 2 && d / 64 % 2 == n / 32 % 2 && d / 32 % 2 == n / 16 % 2
            && d / 16 % 2 == n / 8 % 2 && d / 8 % 2 == n / 4 % 2 && d / 4 % 2 == n / 2 % 2 && d / 2 % 2 == n % 2
  {
    assert n * 2 % 256 == 2 * (n % 128);
    Halves(n % 128);
    TopAside(n);
  }

  lemma {:induction false} UpMoves(v: bv8)
    ensures TopOf(v) <==> Number(v) / 128 % 2 == 1
    ensures var n, d := Number(v), Number(Up(v));
            && d / 128 % 2 == n / 64 % 2 && d / 64 % 2 == n / 32 % 2 && d / 32 % 2 == n / 16 % 2
            && d / 16 % 2 == n / 8 % 2 && d / 8 % 2 == n / 4 % 2 && d / 4 % 2 == n / 2 % 2 && d / 2 % 2 == n % 2
  {
    hide Up, TopOf, Number;
    UpNumber(v);
    DigitsMove(Number(v));
  }

  lemma {:induction false} FourTops(v: bv8, n: nat)
    ensures Tops(v, n + 4) == [TopOf(v), TopOf(Up(v)), TopOf(Up(Up(v))), TopOf(Up(Up(Up(v))))]
                              + Tops(Up(Up(Up(Up(v)))), n)
  {
    hide Up, TopOf, Tops;
    TopsStep(v, n + 4);
    TopsStep(Up(v), n + 3);
    TopsStep(Up(Up(v)), n + 2);
    TopsStep(Up(Up(Up(v))), n + 1);
  }

  lemma {:induction false} TopsStep(v: bv8, n: nat)
    requires n > 0
    ensures Tops(v, n) == [TopOf(v)] + Tops(Up(v), n - 1) && Tops(v, 0) == []
  {
  }

  lemma {:induction false} TopsAreBits(v: bv8)
    ensures Tops(v, 8) == BitsOf(Number(v))
  {
    hide Up, TopOf, Number, Tops;
    FourTops(v, 4);
    FourTops(Up(Up(Up(Up(v)))), 0);
    TopsStep(Up(Up(Up(Up(Up(Up(Up(Up(v)))))))), 1);
    EightMove(v);
  }

  lemma {:induction false} EightMove(v: bv8)
    ensures var a := Up(v); var b := Up(a); var c := Up(b); var d := Up(c); var e := Up(d); var f := Up(e);
            BitsOf(Number(v)) == [TopOf(v), TopOf(a), TopOf(b), TopOf(c), TopOf(d), TopOf(e), TopOf(f), TopOf(Up(f))]
  {
    hide Up, TopOf, Number;
    UpMoves(v);
    UpMoves(Up(v));
    UpMoves(Up(Up(v)));
    UpMoves(Up(Up(Up(v))));
    UpMoves(Up(Up(Up(Up(v)))));
    UpMoves(Up(Up(Up(Up(Up(v))))));
    UpMoves(Up(Up(Up(Up(Up(Up(v)))))));
    UpMoves(Up(Up(Up(Up(Up(Up(Up(v))))))));
  }

  lemma {:induction false} FedIsClocked(crc: bv32, b: byte)
    ensures Cells(Fed(crc, b)) == ClockedAll(Cells(crc), BitsOf(b))
  {
    hide CrcBits, Mixed, Steps, Cells, ClockedAll, Tops, UpBy, BitsOf, Bits, Number;
    BitsAreSteps(crc, Bits(b), 8);
    EightOut(Steps(crc, Tops(Bits(b), 8)), Bits(b));
    TopsAreBits(Bits(b));
    NumberBack(b);
    StepsAreClocked(crc, BitsOf(b));
  }

  // ----- the receiver and the checksum -----

  /** The code's register is the decoder's cells, whatever comes in. */
  lemma {:induction false} CrcIsReceived(crc: bv32, bytes: seq<byte>)
    ensures Cells(Crc32Mpeg(crc, bytes)) == Received(Cells(crc), bytes)
    decreases |bytes|
  {
    if bytes != [] {
      hide Crc32Mpeg, Fed, Cells, ClockedAll, BitsOf;
      OneByte(crc, bytes);
      FedIsClocked(crc, bytes[0]);
      CrcIsReceived(Fed(crc, bytes[0]), bytes[1..]);
    } else {
      NothingFed(crc);
    }
  }

  lemma {:induction false} NothingFed(crc: bv32)
    ensures Crc32Mpeg(crc, []) == crc
  {
  }

  lemma {:induction false} AllSet(m: bv32)
    requires OneBit(m)
    ensures Has(CRC_START, m) && !Has(0, m)
  {
  }

  lemma {:induction false} StartCells()
    ensures Cells(CRC_START) == seq(32, _ => true) && Cells(0) == seq(32, _ => false)
  {
    hide Has, OneBit, Mask, Cells;
    forall e | 0 <= e < 32 ensures Cells(CRC_START)[e] && !Cells(0)[e] {
      MaskIsGood(e);
      AllSet(Mask(e));
    }
  }

  lemma {:induction false} NoneSet(x: bv32)
    requires !Has(x, 1) && !Has(x, 2) && !Has(x, 4) && !Has(x, 8)
    requires !Has(x, 0x10) && !Has(x, 0x20) && !Has(x, 0x40) && !Has(x, 0x80)
    requires !Has(x, 0x100) && !Has(x, 0x200) && !Has(x, 0x400) && !Has(x, 0x800)
    requires !Has(x, 0x1000) && !Has(x, 0x2000) && !Has(x, 0x4000) && !Has(x, 0x8000)
    requires !Has(x, 0x1_0000) && !Has(x, 0x2_0000) && !Has(x, 0x4_0000) && !Has(x, 0x8_0000)
    requires !Has(x, 0x10_0000) && !Has(x, 0x20_0000) && !Has(x, 0x40_0000) && !Has(x, 0x80_0000)
    requires !Has(x, 0x100_0000) && !Has(x, 0x200_0000) && !Has(x, 0x400_0000) && !Has(x, 0x800_0000)
    requires !Has(x, 0x1000_0000) && !Has(x, 0x2000_0000) && !Has(x, 0x4000_0000) && !Has(x, 0x8000_0000)
    ensures x == 0
  {
  }

  lemma {:induction false} NoneHeld(x: bv32)
    requires forall e :: 0 <= e < 32 ==> !Has(x, Mask(e))
    ensures x == 0
  {
    hide Has, Mask;
    FirstMasks();
    SecondMasks();
    ThirdMasks();
    LastMasks();
    assert !Has(x, Mask(0)) && !Has(x, Mask(1)) && !Has(x, Mask(2)) && !Has(x, Mask(3))
           && !Has(x, Mask(4)) && !Has(x, Mask(5)) && !Has(x, Mask(6)) && !Has(x, Mask(7));
    assert !Has(x, Mask(8)) && !Has(x, Mask(9)) && !Has(x, Mask(10)) && !Has(x, Mask(11))
           && !Has(x, Mask(12)) && !Has(x, Mask(13)) && !Has(x, Mask(14)) && !Has(x, Mask(15));
    assert !Has(x, Mask(16)) && !Has(x, Mask(17)) && !Has(x, Mask(18)) && !Has(x, Mask(19))
           && !Has(x, Mask(20)) && !Has(x, Mask(21)) && !Has(x, Mask(22)) && !Has(x, Mask(23));
    assert !Has(x, Mask(24)) && !Has(x, Mask(25)) && !Has(x, Mask(26)) && !Has(x, Mask(27))
           && !Has(x, Mask(28)) && !Has(x, Mask(29)) && !Has(x, Mask(30)) && !Has(x, Mask(31));
    NoneSet(x);
  }

  lemma {:induction false} EmptyIsZero(x: bv32)
    requires Cells(x) == seq(32, _ => false)
    ensures x == 0
  {
    hide Has, Mask;
    forall e | 0 <= e < 32 ensures !Has(x, Mask(e)) { assert !Cells(x)[e]; }
    NoneHeld(x);
  }

  /** The four bytes of the code's checksum are the only ones with which the receiver accepts a section. */
  lemma {:induction false} AcceptsIff(section: seq<byte>, t: seq<byte>)
    requires |t| == 4
    ensures Accepts(section + t) <==> section + t == WithCrc(section)
  {
    hide Received, Crc32Mpeg, WithCrc, Cells;
    CheckPassesIff(section, t);
    CrcIsReceived(CRC_START, section + t);
    StartCells();
    if Accepts(section + t) { EmptyIsZero(Crc32Mpeg(CRC_START, section + t)); }
  }
}
