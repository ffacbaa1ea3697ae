/** The loops that read lace tables, each proved to compute what its table means. */
module LacingLoops {
  import opened Machine
  import opened Lacing

  function Ahead(frames: seq<Frame>, rest: Option<seq<Frame>>): Option<seq<Frame>> {
    match rest
    case None => None
    case Some(more) => Some(frames + more)
  }

  lemma {:induction false} AheadStep(base: nat, cursor: nat, frames: seq<Frame>, sizes: seq<nat>)
    requires sizes != [] && base + cursor <= U64_MAX && sizes[0] <= U32_MAX && cursor + sizes[0] <= U64_MAX
    ensures Ahead(frames, FramesFrom(base, cursor, sizes)) ==
            Ahead(frames + [Frame(base + cursor, sizes[0])], FramesFrom(base, cursor + sizes[0], sizes[1..]))
  {
    var rest := FramesFrom(base, cursor + sizes[0], sizes[1..]);
    if rest.Some? { Regroup(frames, [Frame(base + cursor, sizes[0])], rest.value); }
  }

  /** Nothing behind refused frames, the frames themselves at the end. */
  lemma {:induction false} AheadEnds(base: nat, cursor: nat, frames: seq<Frame>, sizes: seq<nat>)
    ensures Ahead([], FramesFrom(base, cursor, sizes)) == FramesFrom(base, cursor, sizes)
    ensures sizes == [] ==> Ahead(frames, FramesFrom(base, cursor, sizes)) == Some(frames)
    ensures sizes != [] && (base + cursor > U64_MAX || sizes[0] > U32_MAX || cursor + sizes[0] > U64_MAX) ==>
            Ahead(frames, FramesFrom(base, cursor, sizes)).None?
  {
    var all := FramesFrom(base, cursor, sizes);
    if all.Some? { assert [] + all.value == all.value; }
    assert frames + [] == frames;
  }

  method FramesFromSizes(base: usize, start: nat, sizes: seq<nat>) returns (r: Option<seq<Frame>>)
    ensures r == FramesFrom(base, start, sizes)
  {
    hide Ahead, FramesFrom;
    var frames: seq<Frame> := [];
    var cursor: nat, i: nat := start, 0;
    ghost var all := FramesFrom(base, start, sizes);
    assert sizes[0..] == sizes;
    AheadEnds(base, start, [], sizes);
    while i < |sizes|
      invariant i <= |sizes| && all == Ahead(frames, FramesFrom(base, cursor, sizes[i..]))
    {
      AheadEnds(base, cursor, frames, sizes[i..]);
      if base + cursor > U64_MAX || sizes[i] > U32_MAX || cursor + sizes[i] > U64_MAX { return None; }
      AheadStep(base, cursor, frames, sizes[i..]);
      assert sizes[i..][1..] == sizes[i + 1..];
      frames := frames + [Frame(base + cursor, sizes[i])];
      cursor := cursor + sizes[i];
      i := i + 1;
    }
    AheadEnds(base, cursor, frames, sizes[i..]);
    return Some(frames);
  }

  lemma {:induction false} LongerLonger(a: nat, b: nat, m: nat, n: nat, rest: Option<Vint>)
    ensures Longer(a, m, Longer(b, n, rest)) == Longer(a + b, m + n, rest)
  {
  }

  /** One Xiph size from `start` on; nothing when the payload ends or the size leaves `usize`. */
  method ReadXiphSize(payload: seq<byte>, start: nat) returns (r: Option<usize>, cursor: nat)
    requires start <= |payload|
    ensures start <= cursor <= |payload|
    ensures r.Some? ==> XiphSize(payload[start..]) == Some(Vint(r.value, cursor - start))
    ensures r.None? ==> XiphSize(payload[start..]).None? || XiphSize(payload[start..]).value.value > U64_MAX
  {
    var size: usize := 0;
    cursor := start;
    ghost var all := XiphSize(payload[start..]);
    while true
      invariant start <= cursor <= |payload| && all == Longer(size, cursor - start, XiphSize(payload[cursor..]))
      decreases |payload| - cursor
    {
      if cursor == |payload| { return None, cursor; }
      var b := payload[cursor] as int;
      assert payload[cursor..][0] as int == b && payload[cursor..][1..] == payload[cursor + 1..];
      cursor := cursor + 1;
      if size + b > U64_MAX { return None, cursor; }
      if b != 255 { return Some(size + b), cursor; }
      LongerLonger(size, 255, cursor - 1 - start, 1, XiphSize(payload[cursor..]));
      size := size + b;
    }
  }

  /** Sizes that together pass the block's length are refused whatever follows. */
  lemma {:induction false} TooMuch(from: nat, sizes: seq<nat>, length: nat, rest: Option<Table>, total: nat)
    requires Sum(sizes) > total
    ensures WithLast(from, After(sizes, length, rest), total).None?
  {
    if rest.Some? { SumAppend(sizes, rest.value.sizes); }
  }

  lemma {:induction false} TakenSum(sizes: seq<nat>, size: nat)
    ensures Sum(sizes + [size]) == Sum(sizes) + size
  {
    SumAppend(sizes, [size]);
    OneSum(size);
  }

  lemma {:induction false} XiphSizesStep(b: seq<byte>, n: nat, sizes: seq<nat>, length: nat)
    requires n > 0 && XiphSize(b).Some?
    ensures var v := XiphSize(b).value;
            After(sizes, length, XiphSizes(b, n)) ==
                After(sizes + [v.value], length + v.length, XiphSizes(b[v.length..], n - 1))
  {
    var v := XiphSize(b).value;
    AfterAfter(sizes, length, [v.value], v.length, XiphSizes(b[v.length..], n - 1));
  }

  lemma {:induction false} NoXiphSize(b: seq<byte>, n: nat, sizes: seq<nat>, length: nat)
    requires n > 0 && XiphSize(b).None?
    ensures After(sizes, length, XiphSizes(b, n)).None?
  {
  }

  lemma {:induction false} AfterNothing(rest: Option<Table>)
    ensures After([], 0, rest) == rest
  {
    if rest.Some? { assert [] + rest.value.sizes == rest.value.sizes; }
  }

  lemma {:induction false} AfterAll(sizes: seq<nat>, length: nat)
    ensures After(sizes, length, Some(Table([], 0))) == Some(Table(sizes, length))
  {
    assert sizes + [] == sizes;
  }

  /** What `n` more sizes from `cursor` on make of the sizes so far. */
  function XiphRest(payload: seq<byte>, start: nat, cursor: nat, n: nat, sizes: seq<nat>): Option<Table>
    requires start <= cursor <= |payload|
  {
    After(sizes, cursor - start, XiphSizes(payload[cursor..], n))
  }

  lemma {:induction false} XiphRestEnds(payload: seq<byte>, start: nat, cursor: nat, n: nat, sizes: seq<nat>)
    requires start <= cursor <= |payload|
    ensures XiphRest(payload, start, start, n, []) == XiphSizes(payload[start..], n)
    ensures XiphRest(payload, start, cursor, 0, sizes) == Some(Table(sizes, cursor - start))
  {
    AfterNothing(XiphSizes(payload[start..], n));
    AfterAll(sizes, cursor - start);
  }

  method AddXiphSize(payload: seq<byte>, total: usize, start: nat, n: nat, sizes: seq<nat>, known: usize, cursor: nat,
      ghost all: Option<Table>)
    returns (ok: bool, more: seq<nat>, sum: usize, next: nat)
    requires start <= cursor <= |payload| && n > 0 && known == Sum(sizes)
    requires all == XiphRest(payload, start, cursor, n, sizes)
    ensures cursor <= next <= |payload|
    ensures ok ==> && sum == Sum(more)
                   && all == XiphRest(payload, start, next, n - 1, more)
    ensures !ok ==> WithLast(start, all, total).None?
  {
    hide Sum, XiphSize, XiphSizes, After;
    var size, later := ReadXiphSize(payload, cursor);
    next := later;
    if XiphSize(payload[cursor..]).None? {
      NoXiphSize(payload[cursor..], n, sizes, cursor - start);
      return false, sizes, known, next;
    }
    XiphSizesStep(payload[cursor..], n, sizes, cursor - start);
    ghost var v := XiphSize(payload[cursor..]).value;
    ghost var rest := XiphSizes(payload[cursor..][v.length..], n - 1);
    TakenSum(sizes, v.value);
    if size.None? || known + size.value > U64_MAX {
      TooMuch(start, sizes + [v.value], cursor - start + v.length, rest, total);
      return false, sizes, known, next;
    }
    assert payload[cursor..][v.length..] == payload[next..];
    return true, sizes + [size.value], known + size.value, next;
  }

  method ReadXiphTable(payload: seq<byte>, total: usize, start: nat, n: nat)
    returns (ok: bool, sizes: seq<nat>, known: usize, cursor: nat)
    requires start <= |payload|
    ensures start <= cursor <= |payload|
    ensures ok ==> known == Sum(sizes) && XiphSizes(payload[start..], n) == Some(Table(sizes, cursor - start))
    ensures !ok ==> WithLast(start, XiphSizes(payload[start..], n), total).None?
  {
    hide XiphRest, XiphSizes, WithLast;
    sizes, known, cursor := [], 0, start;
    var i := 0;
    ghost var all := XiphSizes(payload[start..], n);
    XiphRestEnds(payload, start, start, n, []);
    while i < n
      invariant i <= n && start <= cursor <= |payload| && known == Sum(sizes)
      invariant all == XiphRest(payload, start, cursor, n - i, sizes)
    {
      var more, sum, next;
      ok, more, sum, next := AddXiphSize(payload, total, start, n - i, sizes, known, cursor, all);
      if !ok { return; }
      sizes, known, cursor := more, sum, next;
      i := i + 1;
    }
    XiphRestEnds(payload, start, cursor, 0, sizes);
    ok := true;
  }

  /** The table's sizes, the rest of the block, and the frames they make. */
  method CloseTable(total: usize, base: usize, cursor: nat, sizes: seq<nat>,
                    known: usize) returns (r: Option<seq<Frame>>)
    requires known == Sum(sizes)
    ensures forall from: nat, length: nat :: from + length == cursor ==>
              r == FramesOf(base, WithLast(from, Some(Table(sizes, length)), total))
  {
    if cursor > total || known > total - cursor { return None; }
    r := FramesFromSizes(base, cursor, sizes + [total - cursor - known]);
  }

  method ParseXiphLacedFrames(payload: seq<byte>, total: usize, base: usize, at: nat) returns (r: Option<seq<Frame>>)
    ensures r == FramesOf(base, XiphLace(payload, total, at))
  {
    if at >= |payload| { return None; }
    var ok, sizes, known, cursor := ReadXiphTable(payload, total, at + 1, payload[at] as int);
    if !ok { return None; }
    r := CloseTable(total, base, cursor, sizes, known);
  }

  method ParseFixedLacedFrames(payload: seq<byte>, total: usize, base: usize, at: nat) returns (r: Option<seq<Frame>>)
    ensures r == FramesOf(base, FixedLace(payload, total, at))
  {
    if at >= |payload| || at + 1 > total { return None; }
    var count := payload[at] as int + 1;
    var remaining := total - (at + 1);
    if remaining % count != 0 { return None; }
    r := FramesFromSizes(base, at + 1, Copies(remaining / count, count));
  }

  lemma {:induction false} EbmlSizesStepAhead(b: seq<byte>, previous: int, n: nat, sizes: seq<nat>, length: nat)
    requires n > 0 && ReadSignedVint(b).Some? && previous + ReadSignedVint(b).value.value >= 0
    ensures var v := ReadSignedVint(b).value;
            After(sizes, length, EbmlSizes(b, previous, n)) ==
            After(sizes + [previous + v.value], length + v.length, EbmlSizes(b[v.length..], previous + v.value, n - 1))
  {
    var v := ReadSignedVint(b).value;
    AfterAfter(sizes, length, [previous + v.value], v.length, EbmlSizes(b[v.length..], previous + v.value, n - 1));
  }

  /** What is to come after `sizes`, whose last one is `previous`. */
  function EbmlRest(payload: seq<byte>, start: nat, cursor: nat, previous: int, n: nat, sizes: seq<nat>): Option<Table>
    requires start <= cursor <= |payload|
  {
    After(sizes, cursor - start, EbmlSizes(payload[cursor..], previous, n))
  }

  lemma {:induction false} EbmlRestEnds(payload: seq<byte>, start: nat, cursor: nat, previous: int, sizes: seq<nat>)
    requires start <= cursor <= |payload|
    ensures EbmlRest(payload, start, cursor, previous, 0, sizes) == Some(Table(sizes, cursor - start))
  {
    AfterAll(sizes, cursor - start);
  }

  lemma {:induction false} EbmlTableStarts(payload: seq<byte>, start: nat, n: nat)
    requires start <= |payload| && n >= 1 && ReadVintSize(payload[start..]).Some?
    ensures var first := ReadVintSize(payload[start..]).value;
            EbmlTable(payload[start..], n) ==
            EbmlRest(payload, start, start + first.length, first.value, n - 1, [first.value])
  {
    var first := ReadVintSize(payload[start..]).value;
    assert payload[start..][first.length..] == payload[start + first.length..];
  }

  method AddEbmlSize(payload: seq<byte>, total: usize, start: nat, n: nat, sizes: seq<nat>, known: usize, cursor: nat,
                     previous: nat,
      ghost all: Option<Table>)
    returns (ok: bool, size: nat, sum: usize, next: nat)
    requires start <= cursor <= |payload| && n > 0 && known == Sum(sizes)
    requires all == EbmlRest(payload, start, cursor, previous, n, sizes)
    ensures cursor <= next <= |payload|
    ensures ok ==> && sum == Sum(sizes + [size]) && size <= previous + 0x80_0000_0000_0000
                   && all == EbmlRest(payload, start, next, size, n - 1, sizes + [size])
    ensures !ok ==> WithLast(start, all, total).None?
  {
    hide VintLength, Marker, BeUint, Range, Sum;
    var delta := ReadSignedVint(payload[cursor..]);
    if delta.None? || previous + delta.value.value < 0 { return false, 0, known, cursor; }
    VintBound(payload[cursor..]);
    size := previous + delta.value.value;
    next := cursor + delta.value.length;
    EbmlSizesStepAhead(payload[cursor..], previous, n, sizes, cursor - start);
    assert payload[cursor..][delta.value.length..] == payload[next..];
    TakenSum(sizes, size);
    if known + size > U64_MAX {
      TooMuch(start, sizes + [size], next - start, EbmlSizes(payload[next..], size, n - 1), total);
      return false, size, known, next;
    }
    return true, size, known + size, next;
  }

  /** Differences are at most 2^55 and a table has at most 254 of them: sizes never leave `isize`. */
  method ReadEbmlTable(payload: seq<byte>, total: usize, start: nat, n: nat)
    returns (ok: bool, sizes: seq<nat>, known: usize, cursor: nat)
    requires start <= |payload| && 1 <= n <= 255
    ensures start <= cursor <= |payload|
    ensures ok ==> known == Sum(sizes) && EbmlTable(payload[start..], n) == Some(Table(sizes, cursor - start))
    ensures !ok ==> WithLast(start, EbmlTable(payload[start..], n), total).None?
  {
    hide EbmlRest, Sum, VintLength, Marker, BeUint;
    sizes, known, cursor := [], 0, start;
    var first := ReadVintSize(payload[start..]);
    if first.None? { ok := false; return; }
    VintBound(payload[start..]);
    cursor := start + first.value.length;
    EbmlTableStarts(payload, start, n);
    sizes, known := [first.value.value], first.value.value;
    OneSum(first.value.value);
    var previous: nat, i := first.value.value, 1;
    ghost var all := EbmlTable(payload[start..], n);
    while i < n
      invariant 1 <= i <= n && start <= cursor <= |payload| && known == Sum(sizes)
      invariant previous <= (i + 1) * 0x80_0000_0000_0000 <= 0x8000_0000_0000_0000
      invariant all == EbmlRest(payload, start, cursor, previous, n - i, sizes)
    {
      var size, sum, next;
      ok, size, sum, next := AddEbmlSize(payload, total, start, n - i, sizes, known, cursor, previous, all);
      if !ok { return; }
      sizes, known, cursor, previous := sizes + [size], sum, next, size;
      i := i + 1;
    }
    EbmlRestEnds(payload, start, cursor, previous, sizes);
    ok := true;
  }

  method ParseEbmlLacedFrames(payload: seq<byte>, total: usize, base: usize, at: nat) returns (r: Option<seq<Frame>>)
    ensures r == FramesOf(base, EbmlLace(payload, total, at))
  {
    if at >= |payload| { return None; }
    if payload[at] == 0 {
      if at + 1 > total { return None; }
      r := FramesFromSizes(base, at + 1, [total - (at + 1)]);
      return;
    }
    var ok, sizes, known, cursor := ReadEbmlTable(payload, total, at + 1, payload[at] as int);
    if !ok { return None; }
    r := CloseTable(total, base, cursor, sizes, known);
  }
}
