/** MPEG-TS packets (ISO/IEC 13818-1 section 2.4.3): packetiser, demultiplexer and their round trip. */
module TransportStream {
  import opened Machine

  const PACKET_BYTES := 188
  const PIDS := 8192

  type Pid = x: int | 0 <= x < 8192

  /** A continuity counter, and the one `k` packets later. */
  type Counter = x: int | 0 <= x < 16

  function After(cc: Counter, k: nat): Counter { (cc + k) % 16 }

  lemma {:induction false} AfterAfter(cc: Counter, j: nat, k: nat)
    ensures After(After(cc, j), k) == After(cc, j + k)
  {
  }

  /** The source masks 33-bit clocks with 0x1fff_ffff, which keeps 29 bits. */
  const CLOCK_MODULUS := 0x2000_0000

  function Masked(clock: nat): nat { clock % CLOCK_MODULUS }

  // ----- one packet -----

  /** What one transport packet says. A packet with a clock has room for 176 payload bytes, else 184. */
  datatype Cell = Cell(pid: Pid, start: bool, cc: Counter, pcr: Option<nat>, payload: seq<byte>)

  function Room(withPcr: bool): nat { if withPcr then 176 else 184 }

  ghost predicate Fits(c: Cell) {
    |c.payload| <= Room(c.pcr.Some?) && (c.pcr.Some? ==> c.pcr.value < CLOCK_MODULUS)
  }

  function PcrBytes(base: nat): seq<byte>
    requires base < CLOCK_MODULUS
  {
    [base / 0x200_0000, base / 0x2_0000 % 256, base / 0x200 % 256, base / 2 % 256, base % 2 * 128 + 0x7e, 0]
  }

  /** An adaptation field of `total` bytes: length, flags, clock and stuffing; a single byte is just the length. */
  function Adaptation(total: nat, pcr: Option<nat>): seq<byte>
    requires 1 <= total <= 184 && (pcr.Some? ==> total >= 8 && pcr.value < CLOCK_MODULUS)
  {
    if total == 1 then [0]
    else if pcr.None? then [total - 1, 0] + seq(total - 2, _ => 0xff)
    else [total - 1, 0x10] + PcrBytes(pcr.value) + seq(total - 8, _ => 0xff)
  }

  function Adapts(c: Cell): bool { c.pcr.Some? || |c.payload| < 184 }

  function Header(c: Cell): seq<byte> {
    [0x47, (if c.start then 0x40 else 0) + c.pid / 256, c.pid % 256, (if Adapts(c) then 0x30 else 0x10) + c.cc]
  }

  function Encode(c: Cell): (p: seq<byte>)
    requires Fits(c)
    ensures |p| == PACKET_BYTES
  {
    Header(c) + Field(c) + c.payload
  }

  /** Reads a packet as section 2.4.3.2 lays it out, without reference to how it was written. */
  function Decode(p: seq<byte>): Option<Cell>
    requires |p| == PACKET_BYTES
  {
    if p[0] != 0x47 then None else
      var control := p[3] / 16 % 4;
      var field: nat := if control >= 2 then 1 + p[4] as int else 0;
      if control % 2 == 0 || 4 + field > PACKET_BYTES then None else
        var pcr := if field >= 8 && p[5] / 16 % 2 == 1 then Some(DecodePcr(p[6..12])) else None;
        Some(Cell(p[1] as int % 32 * 256 + p[2] as int, p[1] / 64 % 2 == 1, p[3] as int % 16, pcr, p[4 + field..]))
  }

  /** The 33-bit program clock reference base. */
  function DecodePcr(b: seq<byte>): nat
    requires |b| == 6
  {
    b[0] as int * 0x200_0000 + b[1] as int * 0x2_0000 + b[2] as int * 0x200 + b[3] as int * 2 + b[4] as int / 128
  }

  lemma {:induction false} PcrRoundTrip(base: nat)
    requires base < CLOCK_MODULUS
    ensures DecodePcr(PcrBytes(base)) == base
  {
    var a, b, c, d := base / 0x200_0000, base / 0x2_0000, base / 0x200, base / 2;
    assert b / 256 == a && c / 256 == b && d / 256 == c;
  }

  function Field(c: Cell): (f: seq<byte>)
    requires Fits(c)
    ensures |f| == if Adapts(c) then 184 - |c.payload| else 0
  {
    if Adapts(c) then Adaptation(184 - |c.payload|, c.pcr) else []
  }

  lemma {:induction false} Sections(c: Cell)
    requires Fits(c)
    ensures var p, f := Encode(c), Field(c);
            && p[..4] == Header(c) && p[4..4 + |f|] == f && p[4 + |f|..] == c.payload
  {
  }

  lemma {:induction false} HeaderFields(c: Cell)
    requires Fits(c)
    ensures var p := Encode(c);
            && p[0] == 0x47
            && p[1] as int % 32 * 256 + p[2] as int == c.pid && (p[1] / 64 % 2 == 1 <==> c.start)
            && p[3] as int % 16 == c.cc && p[3] / 16 % 4 == if Adapts(c) then 3 else 1
  {
    Sections(c);
    var p, h := Encode(c), Header(c);
    assert p[0] == p[..4][0] && p[1] == p[..4][1] && p[2] == p[..4][2] && p[3] == p[..4][3];
    assert h[1] == (if c.start then 0x40 else 0) + c.pid / 256 && h[2] == c.pid % 256;
  }

  lemma {:induction false} FieldBytes(c: Cell)
    requires Fits(c) && Adapts(c)
    ensures var p, n := Encode(c), |Field(c)|;
            && p[4] == n - 1
            && (n >= 2 ==> p[5] == if c.pcr.Some? then 0x10 else 0)
            && (c.pcr.Some? ==> n >= 8 && DecodePcr(p[6..12]) == c.pcr.value)
  {
    Sections(c);
    var p, f := Encode(c), Field(c);
    assert p[4] == p[4..4 + |f|][0];
    if |f| >= 2 { assert p[5] == p[4..4 + |f|][1]; }
    if c.pcr.Some? {
      assert p[6..12] == p[4..4 + |f|][2..8] == PcrBytes(c.pcr.value);
      PcrRoundTrip(c.pcr.value);
    }
  }

  lemma {:induction false} PacketRoundTrip(c: Cell)
    requires Fits(c)
    ensures Decode(Encode(c)) == Some(c)
  {
    Sections(c);
    HeaderFields(c);
    if Adapts(c) { FieldBytes(c); }
  }

  // ----- one write -----

  /** One call of the packetiser. */
  datatype Write = Write(pid: Pid, start: bool, pcr: Option<u64>, payload: seq<byte>)

  /** The packets of one write: as many bytes as fit, packet after packet, at least one packet. */
  function Cells(w: Write, cc: Counter): seq<Cell>
    decreases |w.payload|
  {
    var n := Min(|w.payload|, Room(w.pcr.Some?));
    var pcr := if w.pcr.Some? then Some(Masked(w.pcr.value)) else None;
    [Cell(w.pid, w.start, cc, pcr, w.payload[..n])] +
    if n == |w.payload| then [] else Cells(Write(w.pid, false, None, w.payload[n..]), After(cc, 1))
  }

  function Payloads(cells: seq<Cell>): seq<seq<byte>> {
    if cells == [] then [] else [cells[0].payload] + Payloads(cells[1..])
  }

  lemma {:induction false} CellsStep(w: Write, cc: Counter)
    ensures var n, cells := Min(|w.payload|, Room(w.pcr.Some?)), Cells(w, cc);
            && cells != []
            && cells[0] == Cell(w.pid, w.start, cc,
                                if w.pcr.Some? then Some(Masked(w.pcr.value)) else None, w.payload[..n])
            && Fits(cells[0])
            && cells[1..] == (if n == |w.payload| then []
                              else Cells(Write(w.pid, false, None, w.payload[n..]), After(cc, 1)))
            && cells == [cells[0]] + cells[1..]
  {
  }

  /** The cells of a write carry its payload in order. */
  lemma {:induction false} CellsJoin(w: Write, cc: Counter)
    ensures Flatten(Payloads(Cells(w, cc))) == w.payload
    decreases |w.payload|
  {
    hide Cells, After, Fits;
    var n, cells := Min(|w.payload|, Room(w.pcr.Some?)), Cells(w, cc);
    CellsStep(w, cc);
    assert Payloads(cells) == [cells[0].payload] + Payloads(cells[1..]);
    if n < |w.payload| { CellsJoin(Write(w.pid, false, None, w.payload[n..]), After(cc, 1)); }
    assert w.payload == w.payload[..n] + w.payload[n..];
  }

  /** The k-th packet of a write: numbered modulo 16, and only the first starts a unit or carries the clock. */
  ghost predicate KthOf(w: Write, cc: Counter, k: nat, c: Cell) {
    && Fits(c) && c.pid == w.pid && c.cc == After(cc, k)
    && (c.start <==> k == 0 && w.start)
    && c.pcr == if k == 0 && w.pcr.Some? then Some(Masked(w.pcr.value)) else None
  }

  lemma {:induction false} CellsFields(w: Write, cc: Counter)
    ensures forall k :: 0 <= k < |Cells(w, cc)| ==> KthOf(w, cc, k, Cells(w, cc)[k])
    decreases |w.payload|
  {
    var n, cells := Min(|w.payload|, Room(w.pcr.Some?)), Cells(w, cc);
    CellsStep(w, cc);
    if n < |w.payload| {
      var next := Write(w.pid, false, None, w.payload[n..]);
      CellsFields(next, After(cc, 1));
      forall k | 1 <= k < |cells| ensures KthOf(w, cc, k, cells[k]) {
        AfterAfter(cc, 1, k - 1);
        assert cells[k] == cells[1..][k - 1] && KthOf(next, After(cc, 1), k - 1, cells[k]);
      }
    }
  }

  lemma {:induction false} CellsCarryTheWrite(w: Write, cc: Counter)
    ensures var cells := Cells(w, cc);
            && cells != []
            && Flatten(Payloads(cells)) == w.payload
            && (forall k :: 0 <= k < |cells| ==> KthOf(w, cc, k, cells[k]))
            && forall c <- cells :: Fits(c) && c.pid == w.pid
  {
    CellsJoin(w, cc);
    CellsFields(w, cc);
  }

  lemma {:induction false} PayloadsSnoc(cells: seq<Cell>, c: Cell)
    ensures Payloads(cells + [c]) == Payloads(cells) + [c.payload]
  {
    if cells == [] {
      assert [] + [c] == [c];
    } else {
      assert (cells + [c])[1..] == cells[1..] + [c];
      PayloadsSnoc(cells[1..], c);
    }
  }

  /** The number of packets of a write; the 176-byte first packet costs at most one more than 184-byte ones. */
  lemma {:induction false} CellCount(w: Write, cc: Counter)
    ensures |Cells(w, cc)| <= Max(1, DivCeil(|w.payload|, 176))
    decreases |w.payload|
  {
    var n := Min(|w.payload|, Room(w.pcr.Some?));
    if n < |w.payload| {
      CellCount(Write(w.pid, false, None, w.payload[n..]), After(cc, 1));
      assert DivCeil(|w.payload| - 176, 176) + 1 == DivCeil(|w.payload|, 176);
    }
  }

  // ----- any sequence of writes -----

  /** All packets of a sequence of writes; a PID's counter stands at the number of its packets so far. */
  function AllCells(writes: seq<Write>): seq<Cell> {
    if writes == [] then [] else
      var before := AllCells(writes[..|writes| - 1]);
      var w := writes[|writes| - 1];
      before + Cells(w, After(0, CountPid(before, w.pid)))
  }

  function EncodeAll(cells: seq<Cell>): seq<byte>
    requires forall c <- cells :: Fits(c)
  {
    if cells == [] then [] else Encode(cells[0]) + EncodeAll(cells[1..])
  }

  function DecodeAll(out: seq<byte>): Option<seq<Cell>> {
    if out == [] then Some([])
    else if |out| < PACKET_BYTES then None
    else match (Decode(out[..PACKET_BYTES]), DecodeAll(out[PACKET_BYTES..]))
      case (Some(c), Some(rest)) => Some([c] + rest)
      case _ => None
  }

  lemma {:induction false} StreamRoundTrip(cells: seq<Cell>)
    requires forall c <- cells :: Fits(c)
    ensures |EncodeAll(cells)| == PACKET_BYTES * |cells|
    ensures DecodeAll(EncodeAll(cells)) == Some(cells)
  {
    if cells != [] {
      PacketRoundTrip(cells[0]);
      StreamRoundTrip(cells[1..]);
      assert EncodeAll(cells)[..PACKET_BYTES] == Encode(cells[0]);
      assert EncodeAll(cells)[PACKET_BYTES..] == EncodeAll(cells[1..]);
      assert cells == [cells[0]] + cells[1..];
    }
  }

  lemma {:induction false} EncodeAppend(a: seq<Cell>, b: seq<Cell>)
    requires forall c <- a :: Fits(c)
    requires forall c <- b :: Fits(c)
    ensures forall c <- a + b :: Fits(c)
    ensures EncodeAll(a + b) == EncodeAll(a) + EncodeAll(b)
  {
    if a == [] {
      assert a + b == b;
    } else {
      assert (a + b)[1..] == a[1..] + b;
      EncodeAppend(a[1..], b);
    }
  }

  function CountPid(cells: seq<Cell>, pid: Pid): nat {
    if cells == [] then 0
    else CountPid(cells[..|cells| - 1], pid) + if cells[|cells| - 1].pid == pid then 1 else 0
  }

  /** A demultiplexer: a start packet opens a unit, any other continues the open one. */
  function Units(cells: seq<Cell>, pid: Pid): seq<seq<byte>> {
    if cells == [] then [] else
      var c := cells[|cells| - 1];
      var units := Units(cells[..|cells| - 1], pid);
      if c.pid != pid then units else Continued(units, c.start, c.payload)
  }

  function Continued(units: seq<seq<byte>>, start: bool, bytes: seq<byte>): seq<seq<byte>> {
    if start then units + [bytes]
    else if units == [] then []
    else units[..|units| - 1] + [units[|units| - 1] + bytes]
  }

  /** The same rule on whole writes: what a receiver of one PID is meant to see. */
  function Sent(writes: seq<Write>, pid: Pid): seq<seq<byte>> {
    if writes == [] then [] else
      var w := writes[|writes| - 1];
      var units := Sent(writes[..|writes| - 1], pid);
      if w.pid != pid then units else Continued(units, w.start, w.payload)
  }

  lemma {:induction false} UnitsOfOneWrite(before: seq<Cell>, more: seq<Cell>, pid: Pid)
    requires forall k :: 0 <= k < |more| ==> more[k].pid == more[0].pid && (k > 0 ==> !more[k].start)
    requires more != []
    ensures Units(before + more, pid) ==
            if more[0].pid != pid then Units(before, pid)
            else Continued(Units(before, pid), more[0].start, Flatten(Payloads(more)))
    decreases |more|
  {
    var n := |more| - 1;
    var front, last := more[..n], more[n];
    assert more == front + [last];
    assert (before + more)[..|before + more| - 1] == before + front && (before + more)[|before + more| - 1] == last;
    PayloadsSnoc(front, last);
    FlattenSnoc(Payloads(front), last.payload);
    if n == 0 {
      assert before + front == before && Flatten(Payloads(more)) == last.payload;
    } else {
      UnitsOfOneWrite(before, front, pid);
      if last.pid == pid {
        var units, sofar := Units(before, pid), Flatten(Payloads(front));
        ContinuedTwice(units, more[0].start, sofar, last.payload);
      }
    }
  }

  lemma {:induction false} ContinuedTwice(units: seq<seq<byte>>, start: bool, a: seq<byte>, b: seq<byte>)
    ensures Continued(Continued(units, start, a), false, b) == Continued(units, start, a + b)
  {
    if !start && units != [] {
      var last := units[|units| - 1];
      assert (last + a) + b == last + (a + b);
    }
  }

  lemma {:induction false} CountOfOneWrite(before: seq<Cell>, more: seq<Cell>, pid: Pid, which: Pid)
    requires forall c <- more :: c.pid == which
    ensures CountPid(before + more, pid) == CountPid(before, pid) + if pid == which then |more| else 0
    decreases |more|
  {
    if more == [] {
      assert before + more == before;
    } else {
      var front := more[..|more| - 1];
      assert (before + more)[..|before + more| - 1] == before + front;
      CountOfOneWrite(before, front, pid, which);
    }
  }

  /** Every packet's counter is the number of earlier packets of its PID, modulo 16. */
  ghost predicate Numbered(cells: seq<Cell>) {
    forall k :: 0 <= k < |cells| ==> cells[k].cc == After(0, CountPid(cells[..k], cells[k].pid))
  }

  lemma {:induction false} NumberedAppend(before: seq<Cell>, more: seq<Cell>, pid: Pid, cc: Counter)
    requires Numbered(before) && cc == After(0, CountPid(before, pid))
    requires forall k :: 0 <= k < |more| ==> more[k].pid == pid && more[k].cc == After(cc, k)
    ensures Numbered(before + more)
    decreases |more|
  {
    hide Numbered, CountPid, After;
    if more == [] {
      assert before + more == before;
    } else {
      var front, last := more[..|more| - 1], more[|more| - 1];
      NumberedAppend(before, front, pid, cc);
      CountOfOneWrite(before, front, pid, pid);
      AfterAfter(0, CountPid(before, pid), |front|);
      NumberedSnoc(before + front, last);
      assert before + front + [last] == before + more;
    }
  }

  lemma {:induction false} NumberedSnoc(front: seq<Cell>, last: Cell)
    requires Numbered(front) && last.cc == After(0, CountPid(front, last.pid))
    ensures Numbered(front + [last])
  {
    hide After, CountPid;
    var all := front + [last];
    assert all[..|front|] == front;
    forall k | 0 <= k < |all| ensures all[k].cc == After(0, CountPid(all[..k], all[k].pid)) {
      if k < |front| { assert all[..k] == front[..k]; }
    }
  }

  lemma {:induction false} CellsFitAndCount(writes: seq<Write>)
    ensures forall c <- AllCells(writes) :: Fits(c)
    ensures Numbered(AllCells(writes))
  {
    if writes != [] {
      var before, w := AllCells(writes[..|writes| - 1]), writes[|writes| - 1];
      var cc := After(0, CountPid(before, w.pid));
      CellsFitAndCount(writes[..|writes| - 1]);
      CellsCarryTheWrite(w, cc);
      NumberedAppend(before, Cells(w, cc), w.pid, cc);
    }
  }

  lemma {:induction false} UnitsAreSent(writes: seq<Write>, pid: Pid)
    ensures Units(AllCells(writes), pid) == Sent(writes, pid)
  {
    if writes != [] {
      var before, w := AllCells(writes[..|writes| - 1]), writes[|writes| - 1];
      var cc := After(0, CountPid(before, w.pid));
      UnitsAreSent(writes[..|writes| - 1], pid);
      CellsCarryTheWrite(w, cc);
      UnitsOfOneWrite(before, Cells(w, cc), pid);
    }
  }

  /** Demultiplexing any sequence of writes gives back each PID's payloads, unit by unit, and the counters
      never skip or repeat across calls. */
  lemma {:induction false} DemuxRoundTrip(writes: seq<Write>)
    ensures var cells := AllCells(writes);
            && (forall c <- cells :: Fits(c))
            && |EncodeAll(cells)| == PACKET_BYTES * |cells|
            && DecodeAll(EncodeAll(cells)) == Some(cells)
            && Numbered(cells)
            && forall pid: Pid :: Units(cells, pid) == Sent(writes, pid)
  {
    CellsFitAndCount(writes);
    StreamRoundTrip(AllCells(writes));
    forall pid: Pid ensures Units(AllCells(writes), pid) == Sent(writes, pid) { UnitsAreSent(writes, pid); }
  }

  /** When every write starts a unit, as all the engine's writes do, a PID's units are its payloads. */
  lemma {:induction false} StartingWritesAreUnits(writes: seq<Write>, pid: Pid)
    requires forall w <- writes :: w.start
    ensures Sent(writes, pid) == PayloadsOf(writes, pid)
  {
    if writes != [] {
      StartingWritesAreUnits(writes[..|writes| - 1], pid);
      assert writes[|writes| - 1] in writes;
    }
  }

  function PayloadsOf(writes: seq<Write>, pid: Pid): seq<seq<byte>> {
    if writes == [] then [] else
      var w := writes[|writes| - 1];
      PayloadsOf(writes[..|writes| - 1], pid) + if w.pid == pid then [w.payload] else []
  }

  /** The program clock on the first packet of each unit, where there is one. */
  function UnitClocks(cells: seq<Cell>, pid: Pid): seq<Option<nat>> {
    if cells == [] then [] else
      var c := cells[|cells| - 1];
      UnitClocks(cells[..|cells| - 1], pid) + if c.pid == pid && c.start then [c.pcr] else []
  }

  function ClockOf(w: Write): Option<nat> { if w.pcr.Some? then Some(w.pcr.value % 0x2000_0000) else None }

  function ClocksOf(writes: seq<Write>, pid: Pid): seq<Option<nat>> {
    if writes == [] then [] else
      var w := writes[|writes| - 1];
      ClocksOf(writes[..|writes| - 1], pid) + if w.pid == pid then [ClockOf(w)] else []
  }

  lemma {:induction false} ClocksOfOneWrite(before: seq<Cell>, more: seq<Cell>, pid: Pid)
    requires more != [] && more[0].start
    requires forall k :: 0 <= k < |more| ==> more[k].pid == more[0].pid && (k > 0 ==> !more[k].start)
    ensures UnitClocks(before + more, pid) == UnitClocks(before, pid) + if more[0].pid == pid then [more[0].pcr] else []
    decreases |more|
  {
    var front, last := more[..|more| - 1], more[|more| - 1];
    assert (before + more)[..|before + more| - 1] == before + front && (before + more)[|before + more| - 1] == last;
    if front == [] {
      assert before + front == before;
    } else {
      ClocksOfOneWrite(before, front, pid);
    }
  }

  /** When every write starts a unit, each unit comes with the clock of its write, masked, or with none. */
  lemma {:induction false} UnitClocksAreWritten(writes: seq<Write>, pid: Pid)
    requires forall w <- writes :: w.start
    ensures UnitClocks(AllCells(writes), pid) == ClocksOf(writes, pid)
  {
    if writes != [] {
      hide Cells, UnitClocks, After;
      var before, w := AllCells(writes[..|writes| - 1]), writes[|writes| - 1];
      var cells := Cells(w, After(0, CountPid(before, w.pid)));
      UnitClocksAreWritten(writes[..|writes| - 1], pid);
      CellsCarryTheWrite(w, After(0, CountPid(before, w.pid)));
      assert w in writes;
      ClocksOfOneWrite(before, cells, pid);
    } else {
      NoClocks(pid);
    }
  }

  lemma {:induction false} NoClocks(pid: Pid)
    ensures UnitClocks([], pid) == []
  {
  }

  lemma {:induction false} ClocksOfAppend(a: seq<Write>, b: seq<Write>, pid: Pid)
    ensures ClocksOf(a + b, pid) == ClocksOf(a, pid) + ClocksOf(b, pid)
    decreases |b|
  {
    if b == [] {
      assert a + b == a;
    } else {
      assert (a + b)[..|a + b| - 1] == a + b[..|b| - 1];
      ClocksOfAppend(a, b[..|b| - 1], pid);
    }
  }

  lemma {:induction false} ClocksOfOne(w: Write, pid: Pid)
    ensures ClocksOf([w], pid) == if w.pid == pid then [ClockOf(w)] else []
  {
    assert [w][..0] == [];
    assert ClocksOf([w][..0], pid) == [];
  }

  lemma {:induction false} MaskedIff(clock: u64)
    ensures Masked(clock) == clock <==> clock < CLOCK_MODULUS
  {
  }

  /** The written clock comes back exactly when it fits the 29 bits the mask keeps. */
  lemma {:induction false} PcrSurvivesIff(pcr: u64)
    ensures DecodePcr(PcrBytes(Masked(pcr))) == pcr <==> pcr < CLOCK_MODULUS
  {
    PcrRoundTrip(Masked(pcr));
    MaskedIff(pcr);
  }

  // ----- the muxer -----

  method BuildPacket(pid: Pid, start: bool, cc: Counter, pcr: Option<u64>, chunk: seq<byte>) returns (bytes: seq<byte>)
    requires |chunk| <= Room(pcr.Some?)
    ensures var c := Cell(pid, start, cc, if pcr.Some? then Some(Masked(pcr.value)) else None, chunk);
            Fits(c) && bytes == Encode(c)
  {
    ghost var c := Cell(pid, start, cc, if pcr.Some? then Some(Masked(pcr.value)) else None, chunk);
    var adaptation := pcr.Some? || |chunk| < Room(pcr.Some?);
    var packet := new byte[PACKET_BYTES](_ => 0xff);
    packet[0] := 0x47;
    packet[1] := (if start then 0x40 else 0) + pid / 256;
    packet[2] := pid % 256;
    packet[3] := (if adaptation then 0x30 else 0x10) + cc;
    assert packet[..4] == Header(c);
    var payloadOffset := 4;
    if adaptation {
      payloadOffset := WriteAdaptation(packet, 184 - |chunk|, pcr);
    }
    WritePayload(packet, payloadOffset, chunk);
    bytes := packet[..];
    Joined(bytes, payloadOffset);
  }

  lemma {:induction false} Joined<T>(s: seq<T>, n: nat)
    requires 4 <= n <= |s|
    ensures s == s[..4] + s[4..n] + s[n..]
  {
  }

  method WritePayload(packet: array<byte>, at: nat, chunk: seq<byte>)
    requires 4 <= at && at + |chunk| == packet.Length
    modifies packet
    ensures packet[..4] == old(packet[..4]) && packet[4..at] == old(packet[4..at]) && packet[at..] == chunk
  {
    forall k | 0 <= k < |chunk| { packet[at + k] := chunk[k]; }
  }

  /** Writes length, flags and clock over the stuffing; returns where the payload starts. With one byte the
      flags land on the first payload byte, which the caller overwrites. */
  method WriteAdaptation(packet: array<byte>, total: nat, pcr: Option<u64>) returns (payloadOffset: nat)
    requires packet.Length == PACKET_BYTES && 1 <= total <= 184 && (pcr.Some? ==> total >= 8)
    requires forall k :: 4 <= k < PACKET_BYTES ==> packet[k] == 0xff
    modifies packet
    ensures payloadOffset == 4 + total && packet[..4] == old(packet[..4])
    ensures packet[4..payloadOffset] == Adaptation(total, if pcr.Some? then Some(Masked(pcr.value)) else None)
  {
    packet[4] := total - 1;
    packet[5] := if pcr.Some? then 0x10 else 0;
    if pcr.Some? {
      var base := PcrBytes(Masked(pcr.value));
      forall k | 0 <= k < 6 { packet[6 + k] := base[k]; }
    }
    payloadOffset := 4 + total;
  }

  class TsMuxer {
    var out: seq<byte>
    const continuity: array<Counter>
    /** The calls made so far, for specification. */
    ghost var writes: seq<Write>

    ghost predicate Valid()
      reads this, continuity
    {
      && continuity.Length == PIDS
      && (forall c <- AllCells(writes) :: Fits(c))
      && out == EncodeAll(AllCells(writes))
      && forall pid: Pid :: continuity[pid] == After(0, CountPid(AllCells(writes), pid))
    }

    constructor ()
      ensures Valid() && writes == [] && fresh(continuity)
    {
      out, writes := [], [];
      continuity := new Counter[PIDS](_ => 0);
    }

    method WriteTsPackets(pid: Pid, payloadStart: bool, pcr: Option<u64>, payload: seq<byte>)
      requires Valid()
      modifies this, continuity
      ensures Valid()
      ensures writes == old(writes) + [Write(pid, payloadStart, pcr, payload)]
    {
      ghost var w := Write(pid, payloadStart, pcr, payload);
      OneMoreWrite(writes, w);
      ghost var before := AllCells(writes);
      forall other: Pid { CountersAfter(before, w, other); }
      var packets, next := PacketsOf(pid, payloadStart, pcr, payload, continuity[pid]);
      continuity[pid] := next;
      out := out + packets;
      writes := writes + [w];
    }
  }

  lemma {:induction false} OneMoreWrite(writes: seq<Write>, w: Write)
    ensures var before, all := AllCells(writes), AllCells(writes + [w]);
            var cc := After(0, CountPid(before, w.pid));
            && all == before + Cells(w, cc)
            && (forall c <- before :: Fits(c)) && (forall c <- all :: Fits(c))
            && EncodeAll(all) == EncodeAll(before) + EncodedWrite(w, cc).0
  {
    var before := AllCells(writes);
    var cc := After(0, CountPid(before, w.pid));
    assert (writes + [w])[..|writes|] == writes;
    CellsFitAndCount(writes);
    CellsCarryTheWrite(w, cc);
    EncodeAppend(before, Cells(w, cc));
  }

  lemma {:induction false} CountersAfter(before: seq<Cell>, w: Write, pid: Pid)
    ensures var cc := After(0, CountPid(before, w.pid));
            After(0, CountPid(before + Cells(w, cc), pid)) ==
            if pid == w.pid then EncodedWrite(w, cc).1 else After(0, CountPid(before, pid))
  {
    var cc := After(0, CountPid(before, w.pid));
    CellsCarryTheWrite(w, cc);
    AfterAfter(0, CountPid(before, w.pid), |Cells(w, cc)|);
    CountOfOneWrite(before, Cells(w, cc), pid, w.pid);
  }

  /** The bytes of a write, and the counter they leave behind. */
  function EncodedWrite(w: Write, cc: Counter): (seq<byte>, Counter) {
    CellsCarryTheWrite(w, cc);
    (EncodeAll(Cells(w, cc)), After(cc, |Cells(w, cc)|))
  }

  lemma {:induction false} EncodedStep(w: Write, cc: Counter)
    ensures var n := Min(|w.payload|, Room(w.pcr.Some?));
            var c := Cell(w.pid, w.start, cc, if w.pcr.Some? then Some(Masked(w.pcr.value)) else None, w.payload[..n]);
            var rest := if n == |w.payload| then ([], After(cc, 1))
                        else EncodedWrite(Write(w.pid, false, None, w.payload[n..]), After(cc, 1));
            Fits(c) && EncodedWrite(w, cc) == (Encode(c) + rest.0, rest.1)
  {
    var cells := Cells(w, cc);
    CellsCarryTheWrite(w, cc);
    assert EncodeAll(cells) == Encode(cells[0]) + EncodeAll(cells[1..]);
    AfterAfter(cc, 1, |cells| - 1);
  }

  /** The packet loop of one write, numbering from `counter`; also returns the counter it leaves. */
  method PacketsOf(pid: Pid, payloadStart: bool, pcr: Option<u64>, payload: seq<byte>, counter: Counter)
    returns (packets: seq<byte>, next: Counter)
    ensures (packets, next) == EncodedWrite(Write(pid, payloadStart, pcr, payload), counter)
  {
    packets, next := [], counter;
    var remaining, clock, first := payload, pcr, true;
    ghost var all := EncodedWrite(Write(pid, payloadStart, pcr, payload), counter);
    ghost var rest := all;
    assert packets + rest.0 == rest.0;
    while remaining != [] || first
      invariant all == (packets + rest.0, rest.1)
      invariant first ==> rest == EncodedWrite(Write(pid, payloadStart, clock, remaining), next)
      invariant !first ==> clock == None
      invariant !first && remaining != [] ==> rest == EncodedWrite(Write(pid, false, None, remaining), next)
      invariant !first && remaining == [] ==> rest == ([], next)
      decreases |remaining|, first
    {
      var n := Min(|remaining|, Room(clock.Some?));
      EncodedStep(Write(pid, first && payloadStart, clock, remaining), next);
      var packet := BuildPacket(pid, first && payloadStart, next, clock, remaining[..n]);
      remaining, clock, first, next := remaining[n..], None, false, After(next, 1);
      rest := if remaining == [] then ([], next) else EncodedWrite(Write(pid, false, None, remaining), next);
      Regroup(packets, packet, rest.0);
      packets := packets + packet;
    }
    assert packets + [] == packets;
  }
}
