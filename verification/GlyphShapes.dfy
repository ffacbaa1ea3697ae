/** Which shapes are glyphs, and how many lines they make, said of pixels and bins alone. */
module GlyphShapes {
  import opened Machine
  import opened Visual
  import opened Glyphs

  // ----- a connected shape touches every row and column of its box -----

  lemma {:induction false} PixelAt(w: nat, y: nat, x: nat, j: nat)
    requires x < w && j == w * y + x
    ensures j / w == y && j % w == x
  {
    DivIs(j, w, y, x);
  }

  lemma {:induction false} Beside(w: nat, i: nat)
    requires w >= 1
    ensures i % w >= 1 ==> i >= 1 && (i - 1) / w == i / w && (i - 1) % w == i % w - 1
    ensures i % w + 1 < w ==> (i + 1) / w == i / w && (i + 1) % w == i % w + 1
  {
    var y, x := i / w, i % w;
    assert i == w * y + x;
    if x >= 1 { PixelAt(w, y, x - 1, i - 1); }
    if x + 1 < w { PixelAt(w, y, x + 1, i + 1); }
  }

  lemma {:induction false} OneBelow(w: nat, i: nat)
    requires w >= 1
    ensures (i + w) / w == i / w + 1 && (i + w) % w == i % w
  {
    var y, x := i / w, i % w;
    assert i == w * y + x && w * (y + 1) == w * y + w;
    PixelAt(w, y + 1, x, i + w);
  }

  lemma {:induction false} StepMoves(w: nat, h: nat, i: nat, j: nat)
    requires w >= 1 && Adjacent(w, h, i, j)
    ensures -1 <= j / w - i / w <= 1 && -1 <= j % w - i % w <= 1
  {
    hide Adjacent;
    NeighborsAre(w, h, i, j);
    Beside(w, i);
    OneBelow(w, i);
    if j < i && i / w >= 1 && j == i - w { OneBelow(w, j); }
  }

  /** Steps of one leave nothing out. */
  lemma {:induction false} NothingSkipped(f: seq<int>, v: int) returns (k: nat)
    requires f != [] && f[0] <= v <= f[|f| - 1]
    requires forall i :: 0 <= i < |f| - 1 ==> -1 <= f[i + 1] - f[i] <= 1
    ensures k < |f| && f[k] == v
    decreases |f|
  {
    if f[0] == v {
      k := 0;
    } else {
      var rest := f[1..];
      forall i | 0 <= i < |rest| - 1 ensures -1 <= rest[i + 1] - rest[i] <= 1 {
        assert rest[i] == f[i + 1] && rest[i + 1] == f[i + 2];
      }
      var more := NothingSkipped(rest, v);
      k := more + 1;
    }
  }

  lemma {:induction false} OnTheWay(mask: seq<bool>, w: nat, h: nat, p: seq<nat>, k: nat)
    requires w >= 1 && Path(mask, w, h, p) && k < |p|
    ensures Connected(mask, w, h, p[0], p[k])
  {
    hide Adjacent;
    var q := p[..k + 1];
    assert Path(mask, w, h, q) && q[0] == p[0] && q[|q| - 1] == p[k];
  }

  lemma {:induction false} MemberJoins(mask: seq<bool>, w: nat, h: nat, s: Shape, a: nat, b: nat)
    requires Grid(mask, w, h) && IsShape(mask, w, h, s) && a in s.cells
    ensures b in s.cells <==> Connected(mask, w, h, a, b)
  {
    hide Connected, IsBoundingBox;
    var seed := s.cells[0];
    assert Connected(mask, w, h, seed, a);
    ConnectedTurns(mask, w, h, seed, a);
    if b in s.cells { ConnectedJoins(mask, w, h, a, seed, b); }
    if Connected(mask, w, h, a, b) { ConnectedJoins(mask, w, h, seed, a, b); }
  }

  /** Between two of its pixels a shape has one in every row and one in every column. */
  lemma {:induction false} RowTouched(mask: seq<bool>, w: nat, h: nat, s: Shape, a: nat, b: nat, y: nat)
    returns (c: nat)
    requires Grid(mask, w, h) && IsShape(mask, w, h, s) && a in s.cells && b in s.cells && a / w <= y <= b / w
    ensures c in s.cells && c / w == y
  {
    hide IsShape, Adjacent;
    MemberJoins(mask, w, h, s, a, b);
    var p :| Path(mask, w, h, p) && p[0] == a && p[|p| - 1] == b;
    var rows := seq(|p|, k requires 0 <= k < |p| => p[k] / w);
    forall i | 0 <= i < |p| - 1 ensures -1 <= rows[i + 1] - rows[i] <= 1 { StepMoves(w, h, p[i], p[i + 1]); }
    var k := NothingSkipped(rows, y);
    c := p[k];
    OnTheWay(mask, w, h, p, k);
    MemberJoins(mask, w, h, s, a, c);
  }

  lemma {:induction false} ColumnTouched(mask: seq<bool>, w: nat, h: nat, s: Shape, a: nat, b: nat, x: nat)
    returns (c: nat)
    requires Grid(mask, w, h) && IsShape(mask, w, h, s) && a in s.cells && b in s.cells && a % w <= x <= b % w
    ensures c in s.cells && c % w == x
  {
    hide IsShape, Adjacent;
    MemberJoins(mask, w, h, s, a, b);
    var p :| Path(mask, w, h, p) && p[0] == a && p[|p| - 1] == b;
    var columns := seq(|p|, k requires 0 <= k < |p| => p[k] % w);
    forall i | 0 <= i < |p| - 1 ensures -1 <= columns[i + 1] - columns[i] <= 1 { StepMoves(w, h, p[i], p[i + 1]); }
    var k := NothingSkipped(columns, x);
    c := p[k];
    OnTheWay(mask, w, h, p, k);
    MemberJoins(mask, w, h, s, a, c);
  }

  // ----- counting them -----

  ghost function RowsTouched(w: nat, cells: seq<nat>): set<nat>
    requires w >= 1
  {
    set i | i in cells :: i / w
  }

  ghost function ColumnsTouched(w: nat, cells: seq<nat>): set<nat>
    requires w >= 1
  {
    set i | i in cells :: i % w
  }

  lemma {:induction false} RangeSize(s: set<nat>, lo: nat, hi: nat)
    requires lo <= hi && forall v: nat :: v in s <==> lo <= v <= hi
    ensures |s| == hi - lo + 1
    decreases hi - lo
  {
    if lo == hi {
      assert s == {lo};
    } else {
      RangeSize(s - {hi}, lo, hi - 1);
    }
  }

  lemma {:induction false} TouchedRows(mask: seq<bool>, w: nat, h: nat, s: Shape)
    requires Grid(mask, w, h) && IsShape(mask, w, h, s)
    ensures |RowsTouched(w, s.cells)| == s.bounds.bottom - s.bounds.top + 1
  {
    hide IsComponent;
    var lo, hi := s.bounds.top, s.bounds.bottom;
    var i :| 0 <= i < |s.cells| && s.cells[i] / w == lo;
    var j :| 0 <= j < |s.cells| && s.cells[j] / w == hi;
    forall y: nat ensures y in RowsTouched(w, s.cells) <==> lo <= y <= hi {
      if lo <= y <= hi { var c := RowTouched(mask, w, h, s, s.cells[i], s.cells[j], y); }
    }
    RangeSize(RowsTouched(w, s.cells), lo, hi);
  }

  lemma {:induction false} TouchedColumns(mask: seq<bool>, w: nat, h: nat, s: Shape)
    requires Grid(mask, w, h) && IsShape(mask, w, h, s)
    ensures |ColumnsTouched(w, s.cells)| == s.bounds.right - s.bounds.left + 1
  {
    hide IsComponent;
    var lo, hi := s.bounds.left, s.bounds.right;
    var i :| 0 <= i < |s.cells| && s.cells[i] % w == lo;
    var j :| 0 <= j < |s.cells| && s.cells[j] % w == hi;
    forall x: nat ensures x in ColumnsTouched(w, s.cells) <==> lo <= x <= hi {
      if lo <= x <= hi { var c := ColumnTouched(mask, w, h, s, s.cells[i], s.cells[j], x); }
    }
    RangeSize(ColumnsTouched(w, s.cells), lo, hi);
  }

  /** A shape is a glyph exactly when it has 2 to 96 pixels a squared scale, touches 2 to 14 rows and 2 to 18 columns a
      scale, and covers from an eighth to nine tenths of the box of rows and columns it touches. */
  lemma {:induction false} GlyphIff(mask: seq<bool>, w: nat, h: nat, s: Shape, scale: nat)
    requires Grid(mask, w, h) && IsShape(mask, w, h, s)
    ensures var area, rows, columns := |s.cells|, |RowsTouched(w, s.cells)|, |ColumnsTouched(w, s.cells)|;
            IsGlyph(s, scale) <==>
              && 2 <= area <= 96 * scale * scale && 2 <= rows <= 14 * scale && 2 <= columns <= 18 * scale
              && columns * rows <= 8 * area && 100 * area <= 90 * (columns * rows)
  {
    hide IsShape, RowsTouched, ColumnsTouched;
    TouchedRows(mask, w, h, s);
    TouchedColumns(mask, w, h, s);
  }

  // ----- lines -----

  /** Bins from `from` on where five or more glyphs end, in it and the next one; any two of them three or more apart. */
  ghost predicate Separate(baselines: seq<nat>, from: nat, picks: seq<nat>) {
    && (forall k :: 0 <= k < |picks| ==> from <= picks[k] < |baselines| && PairAt(baselines, picks[k]) >= 5)
    && forall k :: 0 < k < |picks| ==> picks[k - 1] + 3 <= picks[k]
  }

  function EndingAt(baselines: seq<nat>, picks: seq<nat>): nat
    requires forall k :: 0 <= k < |picks| ==> picks[k] < |baselines|
  {
    if picks == [] then 0 else PairAt(baselines, picks[0]) + EndingAt(baselines, picks[1..])
  }

  /** The counted lines are such bins, and the aligned glyphs those that end there. */
  lemma {:induction false} LinesArePicked(baselines: seq<nat>, bin: nat) returns (picks: seq<nat>)
    ensures Separate(baselines, bin, picks) && |picks| == RowsFrom(baselines, bin).lines
    ensures EndingAt(baselines, picks) == RowsFrom(baselines, bin).aligned
    decreases |baselines| - bin
  {
    hide PairAt;
    if bin >= |baselines| {
      picks := [];
    } else if PairAt(baselines, bin) >= 5 {
      var rest := LinesArePicked(baselines, bin + 3);
      picks := [bin] + rest;
      assert picks[1..] == rest;
      forall k | 0 < k < |picks| ensures picks[k - 1] + 3 <= picks[k] {
        if k > 1 { assert picks[k] == rest[k - 1] && picks[k - 1] == rest[k - 2]; }
      }
    } else {
      picks := LinesArePicked(baselines, bin + 1);
    }
  }

  /** No choice of such bins has more than are counted. */
  lemma {:induction false} NoMoreLines(baselines: seq<nat>, bin: nat, picks: seq<nat>)
    requires Separate(baselines, bin, picks)
    ensures |picks| <= RowsFrom(baselines, bin).lines
    decreases |baselines| - bin
  {
    hide PairAt;
    if picks != [] {
      assert bin <= picks[0] < |baselines|;
      var count := PairAt(baselines, bin);
      var rest := if count >= 5 then picks[1..] else picks;
      var next := if count >= 5 then bin + 3 else bin + 1;
      forall k | 0 <= k < |rest| ensures next <= rest[k] {
        if count >= 5 { Ascends(picks, k + 1); } else { Ascends(picks, k); }
      }
      if count >= 5 {
        assert forall k :: 0 < k < |rest| ==> rest[k] == picks[k + 1] && rest[k - 1] == picks[k];
      }
      NoMoreLines(baselines, next, rest);
    }
  }

  lemma {:induction false} Ascends(picks: seq<nat>, k: nat)
    requires k < |picks| && forall j :: 0 < j < |picks| ==> picks[j - 1] + 3 <= picks[j]
    ensures picks[0] + 3 * k <= picks[k]
  {
    if k > 0 { Ascends(picks, k - 1); }
  }
}
