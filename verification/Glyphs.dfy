/** The bright shapes of a frame, each found once, and what is counted over them: glyphs, baseline bins, text lines.
    Beside it the runs of text-like samples. */
module Glyphs {
  import opened Machine
  import opened Visual

  datatype Shape = Shape(cells: seq<nat>, bounds: Bounds)

  /** The pixel a shape was found at. */
  function First(s: Shape): nat { if s.cells == [] then 0 else s.cells[0] }

  /** All pixels of a list of shapes. */
  function Cells(shapes: seq<Shape>): seq<nat> {
    if shapes == [] then [] else Cells(shapes[..|shapes| - 1]) + shapes[|shapes| - 1].cells
  }

  lemma {:induction false} CellsSnoc(shapes: seq<Shape>, s: Shape)
    ensures Cells(shapes + [s]) == Cells(shapes) + s.cells
  {
    assert (shapes + [s])[..|shapes|] == shapes;
  }

  /** A component in its bounding box, found at its first pixel in scan order. */
  ghost predicate IsShape(mask: seq<bool>, w: nat, h: nat, s: Shape)
    requires w >= 1
  {
    && s.cells != [] && IsComponent(mask, w, h, s.cells[0], s.cells) && IsBoundingBox(w, s.cells, s.bounds)
    && forall i :: i in s.cells ==> s.cells[0] <= i
  }

  /** The shapes of a frame: every bright pixel in exactly one of them, in scan order of their first pixels. */
  ghost predicate AreShapes(mask: seq<bool>, w: nat, h: nat, shapes: seq<Shape>)
    requires w >= 1
  {
    && (forall k :: 0 <= k < |shapes| ==> IsShape(mask, w, h, shapes[k]))
    && (forall k, l :: 0 <= k < l < |shapes| ==> First(shapes[k]) < First(shapes[l]))
    && Distinct(Cells(shapes)) && forall i: nat :: i in Cells(shapes) <==> i < |mask| && mask[i]
  }

  function CountBright(mask: seq<bool>): nat {
    if mask == [] then 0 else CountBright(mask[..|mask| - 1]) + if mask[|mask| - 1] then 1 else 0
  }

  // ----- what makes a shape a glyph -----

  function Width(b: Bounds): int { b.right - b.left + 1 }

  function Height(b: Bounds): int { b.bottom - b.top + 1 }

  predicate IsGlyph(s: Shape, scale: nat) {
    var area, box := |s.cells|, Width(s.bounds) * Height(s.bounds);
    && 2 <= area <= 96 * scale * scale && 2 <= Height(s.bounds) <= 14 * scale && 2 <= Width(s.bounds) <= 18 * scale
    && area * 8 >= box && area * 100 <= box * 90
  }

  function CountGlyphs(shapes: seq<Shape>, scale: nat): nat {
    if shapes == [] then 0 else
      CountGlyphs(shapes[..|shapes| - 1], scale) + if IsGlyph(shapes[|shapes| - 1], scale) then 1 else 0
  }

  function GlyphArea(shapes: seq<Shape>, scale: nat): nat {
    if shapes == [] then 0 else
      GlyphArea(shapes[..|shapes| - 1], scale) +
      if IsGlyph(shapes[|shapes| - 1], scale) then |shapes[|shapes| - 1].cells| else 0
  }

  /** How many glyphs end in the rows of bin `bin`. */
  function GlyphsInBin(shapes: seq<Shape>, scale: nat, bin: nat): nat
    requires scale >= 1
  {
    if shapes == [] then 0 else
      GlyphsInBin(shapes[..|shapes| - 1], scale, bin) +
      if IsGlyph(shapes[|shapes| - 1], scale) && shapes[|shapes| - 1].bounds.bottom / (3 * scale) == bin then 1 else 0
  }

  lemma {:induction false} CountsSnoc(shapes: seq<Shape>, s: Shape, scale: nat)
    requires scale >= 1
    ensures CountGlyphs(shapes + [s], scale) == CountGlyphs(shapes, scale) + if IsGlyph(s, scale) then 1 else 0
    ensures GlyphArea(shapes + [s], scale) == GlyphArea(shapes, scale) + if IsGlyph(s, scale) then |s.cells| else 0
    ensures forall bin: nat :: GlyphsInBin(shapes + [s], scale, bin) ==
              GlyphsInBin(shapes, scale, bin) +
              if IsGlyph(s, scale) && s.bounds.bottom / (3 * scale) == bin then 1 else 0
  {
    hide IsGlyph;
    assert (shapes + [s])[..|shapes|] == shapes;
  }

  lemma {:induction false} AreaWithinCells(shapes: seq<Shape>, scale: nat)
    ensures GlyphArea(shapes, scale) <= |Cells(shapes)|
  {
    hide IsGlyph;
    if shapes != [] { AreaWithinCells(shapes[..|shapes| - 1], scale); }
  }

  /** As many different pixels as there are bright ones. */
  lemma {:induction false} BrightAreCounted(mask: seq<bool>, cells: seq<nat>)
    requires Distinct(cells) && forall i: nat :: i in cells <==> i < |mask| && mask[i]
    ensures |cells| == CountBright(mask)
  {
    SizeOfDistinct(cells);
    BrightSize(mask);
    assert Elements(cells) == BrightSet(mask);
  }

  ghost function BrightSet(mask: seq<bool>): (r: set<nat>)
    ensures forall i: nat :: i in r <==> i < |mask| && mask[i]
  {
    if mask == [] then {} else
      BrightSet(mask[..|mask| - 1]) + if mask[|mask| - 1] then {|mask| - 1} else {}
  }

  lemma {:induction false} BrightSize(mask: seq<bool>)
    ensures |BrightSet(mask)| == CountBright(mask)
  {
    if mask != [] { BrightSize(mask[..|mask| - 1]); }
  }

  // ----- the scan -----

  /** What is so when the pixels before `next` have been scanned. */
  ghost predicate Scanned(mask: seq<bool>, w: nat, h: nat, visited: seq<bool>, shapes: seq<Shape>, next: nat)
    requires w >= 1 && |visited| == |mask|
  {
    && Settled(mask, w, h, visited) && Distinct(Cells(shapes))
    && (forall i: nat :: i in Cells(shapes) <==> i < |mask| && visited[i])
    && (forall i: nat :: i < next && i < |mask| && mask[i] ==> visited[i])
    && (forall k :: 0 <= k < |shapes| ==> IsShape(mask, w, h, shapes[k]) && First(shapes[k]) < next)
    && (forall k, l :: 0 <= k < l < |shapes| ==> First(shapes[k]) < First(shapes[l]))
  }

  lemma {:induction false} ScanStarts(mask: seq<bool>, w: nat, h: nat, visited: seq<bool>)
    requires w >= 1 && |visited| == |mask| && forall i :: 0 <= i < |visited| ==> !visited[i]
    ensures Scanned(mask, w, h, visited, [], 0)
  {
  }

  lemma {:induction false} ScanSkips(mask: seq<bool>, w: nat, h: nat, visited: seq<bool>, shapes: seq<Shape>, next: nat)
    requires w >= 1 && |visited| == |mask| && Scanned(mask, w, h, visited, shapes, next) && next < |mask|
    requires visited[next] || !mask[next]
    ensures Scanned(mask, w, h, visited, shapes, next + 1)
  {
    hide Settled, IsShape, Cells;
  }

  lemma {:induction false} CellsJoin(mask: seq<bool>, was: seq<bool>, now: seq<bool>, before: seq<nat>, cells: seq<nat>)
    requires |was| == |now| == |mask| && Distinct(before) && Distinct(cells) && Marked(was, now, cells)
    requires forall i: nat :: i in before <==> i < |mask| && was[i]
    ensures Distinct(before + cells) && forall i: nat :: i in before + cells <==> i < |mask| && now[i]
  {
    var all := before + cells;
    forall i, j | 0 <= i < j < |all| ensures all[i] != all[j] {
      if i < |before| && j >= |before| { assert all[i] in before && all[j] in cells; }
    }
  }

  /** A component none of whose pixels was marked has no pixel before the first unmarked bright one. */
  lemma {:induction false} FirstIsLeast(mask: seq<bool>, w: nat, h: nat, was: seq<bool>, now: seq<bool>,
                                        shapes: seq<Shape>, next: nat, s: Shape)
    requires w >= 1 && |was| == |now| == |mask| && Scanned(mask, w, h, was, shapes, next) && next < |mask|
    requires s.cells != [] && s.cells[0] == next && IsComponent(mask, w, h, next, s.cells) &&
             IsBoundingBox(w, s.cells, s.bounds)
    requires Marked(was, now, s.cells)
    ensures IsShape(mask, w, h, s)
  {
    hide Settled, IsBoundingBox, Connected, Cells;
    forall i | i in s.cells ensures next <= i {
      if i < next { LitEnds(mask, w, h, next, i); }
    }
  }

  lemma {:induction false} ScanFinds(mask: seq<bool>, w: nat, h: nat, was: seq<bool>, now: seq<bool>,
                                     shapes: seq<Shape>, next: nat, s: Shape)
    requires w >= 1 && |was| == |now| == |mask| && Scanned(mask, w, h, was, shapes, next) && next < |mask|
    requires s.cells != [] && s.cells[0] == next && IsComponent(mask, w, h, next, s.cells) &&
             IsBoundingBox(w, s.cells, s.bounds)
    requires Settled(mask, w, h, now) && Marked(was, now, s.cells)
    ensures Scanned(mask, w, h, now, shapes + [s], next + 1)
  {
    hide Settled, IsBoundingBox, Connected, Cells, IsShape, Distinct, Marked;
    FirstIsLeast(mask, w, h, was, now, shapes, next, s);
    CellsSnoc(shapes, s);
    ComponentIsDistinct(mask, w, h, next, s.cells);
    CellsJoin(mask, was, now, Cells(shapes), s.cells);
    hide IsComponent;
    var more := shapes + [s];
    forall k | 0 <= k < |more| ensures IsShape(mask, w, h, more[k]) && First(more[k]) < next + 1 {
      if k < |shapes| { assert more[k] == shapes[k]; }
    }
    forall k, l | 0 <= k < l < |more| ensures First(more[k]) < First(more[l]) {
      if l < |shapes| { assert more[k] == shapes[k] && more[l] == shapes[l]; } else { assert more[k] == shapes[k]; }
    }
    ScannedSoFar(mask, was, now, next, s.cells);
  }

  lemma {:induction false} ComponentIsDistinct(mask: seq<bool>, w: nat, h: nat, seed: nat, cells: seq<nat>)
    requires w >= 1 && IsComponent(mask, w, h, seed, cells)
    ensures Distinct(cells)
  {
  }

  lemma {:induction false} ScannedSoFar(mask: seq<bool>, was: seq<bool>, now: seq<bool>, next: nat, cells: seq<nat>)
    requires |was| == |now| == |mask| && cells != [] && cells[0] == next && Marked(was, now, cells)
    requires forall i: nat :: i < next && i < |mask| && mask[i] ==> was[i]
    ensures forall i: nat :: i < next + 1 && i < |mask| && mask[i] ==> now[i]
  {
    assert cells[0] in cells;
  }

  lemma {:induction false} LitEnds(mask: seq<bool>, w: nat, h: nat, a: nat, b: nat)
    requires w >= 1 && Connected(mask, w, h, a, b)
    ensures b < |mask| && mask[b]
  {
    BrightEnds(mask, w, h, a, b);
  }

  lemma {:induction false} ScanEnds(mask: seq<bool>, w: nat, h: nat, visited: seq<bool>, shapes: seq<Shape>)
    requires w >= 1 && |visited| == |mask| && Scanned(mask, w, h, visited, shapes, |mask|)
    ensures AreShapes(mask, w, h, shapes)
  {
    hide Cells, IsShape, Closed;
  }

  /** The bins in which glyphs end, as many as three-row steps fit the frame. */
  ghost predicate BinsCount(baselines: seq<nat>, shapes: seq<Shape>, scale: nat)
    requires scale >= 1
  {
    forall bin :: 0 <= bin < |baselines| ==> baselines[bin] == GlyphsInBin(shapes, scale, bin)
  }

  lemma {:induction false} SumUpdate(s: seq<nat>, i: nat)
    requires i < |s|
    ensures Sum(s[i := s[i] + 1]) == Sum(s) + 1
  {
    if i == 0 {
      assert s[0 := s[0] + 1][1..] == s[1..];
    } else {
      SumUpdate(s[1..], i - 1);
      assert s[i := s[i] + 1][1..] == s[1..][i - 1 := s[1..][i - 1] + 1];
    }
  }

  lemma {:induction false} BottomFits(w: nat, h: nat, s: Shape, mask: seq<bool>, scale: nat)
    requires Grid(mask, w, h) && s.cells != [] && IsComponent(mask, w, h, s.cells[0], s.cells) &&
             IsBoundingBox(w, s.cells, s.bounds)
    requires 1 <= scale <= 2
    ensures s.bounds.bottom / (3 * scale) < DivCeil(h, 3 * scale)
  {
    var k :| 0 <= k < |s.cells| && s.cells[k] / w == s.bounds.bottom;
    hide IsComponent;
    assert s.cells[k] in s.cells;
    CellInGrid(mask, w, h, s.cells, s.cells[k]);
    InGrid(w, h, s.cells[k]);
    hide *;
    BinFits(s.bounds.bottom, h, scale);
  }

  lemma {:induction false} BinFits(bottom: nat, h: nat, scale: nat)
    requires bottom < h && 1 <= scale <= 2
    ensures bottom / (3 * scale) < DivCeil(h, 3 * scale)
  {
    if scale == 1 {
      assert bottom / 3 < (h + 2) / 3;
    } else {
      assert bottom / 6 < (h + 5) / 6;
    }
  }

  lemma {:induction false} CellInGrid(mask: seq<bool>, w: nat, h: nat, cells: seq<nat>, i: nat)
    requires w >= 1 && cells != [] && IsComponent(mask, w, h, cells[0], cells) && i in cells
    ensures i < |mask|
  {
    hide Connected;
    BrightEnds(mask, w, h, cells[0], i);
  }

  lemma {:induction false} AllDark(n: nat)
    ensures Sum(seq(n, _ => 0)) == 0
  {
    if n > 0 {
      assert seq(n, _ => 0)[1..] == seq(n - 1, _ => 0);
      AllDark(n - 1);
    }
  }

  /** The shapes of the frame are found, and the glyphs among them counted: how many, how many pixels, and in which
      baseline bin each ends. Glyph pixels never outnumber the bright ones. */
  method CountShapes(mask: seq<bool>, w: nat, h: nat, scale: nat)
    returns (glyphs: nat, glyphPixels: nat, baselines: seq<nat>, ghost shapes: seq<Shape>)
    requires Grid(mask, w, h) && 1 <= scale <= 2
    ensures AreShapes(mask, w, h, shapes)
    ensures glyphs == CountGlyphs(shapes, scale) && glyphPixels == GlyphArea(shapes, scale)
    ensures |baselines| == DivCeil(h, 3 * scale) && BinsCount(baselines, shapes, scale)
    ensures glyphPixels <= CountBright(mask) && Sum(baselines) == glyphs
  {
    hide Scanned, IsComponent, IsBoundingBox, Settled, Marked, AreShapes, IsGlyph, Cells, CountGlyphs, GlyphArea,
         CountBright;
    var visited := new bool[|mask|](_ => false);
    glyphs, glyphPixels, shapes := 0, 0, [];
    baselines := seq(DivCeil(h, 3 * scale), _ => 0);
    AllDark(DivCeil(h, 3 * scale));
    ScanStarts(mask, w, h, visited[..]);
    NothingCounted(scale);
    var initial := 0;
    while initial < |mask|
      invariant initial <= |mask| && fresh(visited) && Scanned(mask, w, h, visited[..], shapes, initial)
      invariant glyphs == CountGlyphs(shapes, scale) && glyphPixels == GlyphArea(shapes, scale)
      invariant |baselines| == DivCeil(h, 3 * scale) && BinsCount(baselines, shapes, scale) && Sum(baselines) == glyphs
    {
      if visited[initial] || !mask[initial] {
        ScanSkips(mask, w, h, visited[..], shapes, initial);
      } else {
        ghost var was := visited[..];
        ScannedIsSettled(mask, w, h, was, shapes, initial);
        var queue, bounds := FloodFrom(mask, w, h, initial, visited);
        var s := Shape(queue, bounds);
        ScanFinds(mask, w, h, was, visited[..], shapes, initial, s);
        CountsSnoc(shapes, s, scale);
        if IsGlyph(s, scale) {
          BottomFits(w, h, s, mask, scale);
          var bin := bounds.bottom / (3 * scale);
          SumUpdate(baselines, bin);
          glyphs, glyphPixels := glyphs + 1, glyphPixels + |queue|;
          baselines := baselines[bin := baselines[bin] + 1];
        }
        shapes := shapes + [s];
      }
      initial := initial + 1;
    }
    ScanEnds(mask, w, h, visited[..], shapes);
    GlyphsAreBright(mask, w, h, shapes, scale);
  }

  lemma {:induction false} NothingCounted(scale: nat)
    requires scale >= 1
    ensures CountGlyphs([], scale) == 0 && GlyphArea([], scale) == 0
    ensures forall bin: nat :: GlyphsInBin([], scale, bin) == 0
  {
  }

  lemma {:induction false} ScannedIsSettled(mask: seq<bool>, w: nat, h: nat, visited: seq<bool>, shapes: seq<Shape>,
                                            next: nat)
    requires w >= 1 && |visited| == |mask| && Scanned(mask, w, h, visited, shapes, next)
    ensures Settled(mask, w, h, visited)
  {
    hide Settled, IsShape, Cells;
  }

  lemma {:induction false} GlyphsAreBright(mask: seq<bool>, w: nat, h: nat, shapes: seq<Shape>, scale: nat)
    requires w >= 1 && AreShapes(mask, w, h, shapes)
    ensures GlyphArea(shapes, scale) <= CountBright(mask)
  {
    hide IsShape, Cells, GlyphArea, CountBright;
    AreaWithinCells(shapes, scale);
    BrightAreCounted(mask, Cells(shapes));
  }

  /** The shape a bright pixel is in is exactly what that pixel is connected to. */
  lemma {:induction false} ShapeOfPixel(mask: seq<bool>, w: nat, h: nat, shapes: seq<Shape>, i: nat) returns (k: nat)
    requires Grid(mask, w, h) && AreShapes(mask, w, h, shapes) && i < |mask| && mask[i]
    ensures k < |shapes| && i in shapes[k].cells
    ensures forall j: nat :: j in shapes[k].cells <==> Connected(mask, w, h, i, j)
  {
    hide Connected, Grid;
    GridIsWide(mask, w, h);
    k := OwnerOf(shapes, i);
    assert IsShape(mask, w, h, shapes[k]);
    var seed := shapes[k].cells[0];
    forall j: nat ensures j in shapes[k].cells <==> Connected(mask, w, h, i, j) {
      ConnectedTurns(mask, w, h, seed, i);
      if Connected(mask, w, h, seed, j) { ConnectedJoins(mask, w, h, i, seed, j); }
      if Connected(mask, w, h, i, j) { ConnectedJoins(mask, w, h, seed, i, j); }
    }
  }

  lemma {:induction false} OwnerOf(shapes: seq<Shape>, i: nat) returns (k: nat)
    requires i in Cells(shapes)
    ensures k < |shapes| && i in shapes[k].cells
  {
    var last := |shapes| - 1;
    if i in shapes[last].cells { k := last; } else { k := OwnerOf(shapes[..last], i); }
  }

  // ----- text lines -----

  datatype Rows = Rows(lines: nat, aligned: nat)

  /** Bins are taken two at a time where five or more glyphs end, and the third is passed over. */
  function RowsFrom(baselines: seq<nat>, bin: nat): Rows
    decreases |baselines| - bin
  {
    if bin >= |baselines| then Rows(0, 0) else
      var count := PairAt(baselines, bin);
      if count >= 5 then
        var rest := RowsFrom(baselines, bin + 3);
        Rows(rest.lines + 1, rest.aligned + count)
      else RowsFrom(baselines, bin + 1)
  }

  function PairAt(baselines: seq<nat>, bin: nat): nat
    requires bin < |baselines|
  {
    baselines[bin] + if bin + 1 < |baselines| then baselines[bin + 1] else 0
  }

  method CountRows(baselines: seq<nat>) returns (lines: nat, aligned: nat)
    ensures Rows(lines, aligned) == RowsFrom(baselines, 0)
  {
    var bin := 0;
    lines, aligned := 0, 0;
    while bin < |baselines|
      invariant RowsFrom(baselines, 0) ==
                Rows(lines + RowsFrom(baselines, bin).lines, aligned + RowsFrom(baselines, bin).aligned)
      decreases |baselines| - bin
    {
      var count := PairAt(baselines, bin);
      if count >= 5 {
        lines, aligned, bin := lines + 1, aligned + count, bin + 3;
      } else {
        bin := bin + 1;
      }
    }
  }

  function SumFrom(s: seq<nat>, i: nat): nat { if i >= |s| then 0 else Sum(s[i..]) }

  lemma {:induction false} SumFromStep(s: seq<nat>, i: nat)
    ensures SumFrom(s, i) == (if i < |s| then s[i] else 0) + SumFrom(s, i + 1)
  {
    if i < |s| { assert s[i..][1..] == s[i + 1..]; }
  }

  /** No glyph is counted for two lines, and every line has at least five. */
  lemma {:induction false} AlignedGlyphsAreGlyphs(baselines: seq<nat>, bin: nat)
    ensures var r := RowsFrom(baselines, bin); 5 * r.lines <= r.aligned <= SumFrom(baselines, bin)
    decreases |baselines| - bin
  {
    hide Sum;
    SumFromStep(baselines, bin);
    if bin < |baselines| {
      SumFromStep(baselines, bin + 1);
      SumFromStep(baselines, bin + 2);
      AlignedGlyphsAreGlyphs(baselines, if PairAt(baselines, bin) >= 5 then bin + 3 else bin + 1);
    }
  }

  // ----- runs of text-like samples -----

  const MIN_ROLL_MS := 20000

  datatype Sample = Sample(time: u64, textLike: bool)

  /** A new run starts here even after a text-like sample. */
  predicate Gap(samples: seq<Sample>, i: nat) {
    0 < i < |samples| && SatSub(samples[i].time, samples[i - 1].time) > 10000
  }

  /** Text-like samples from `first` to `last` without a gap between them. */
  ghost predicate IsRun(samples: seq<Sample>, first: nat, last: nat) {
    && first <= last < |samples| && (forall i :: first <= i <= last ==> samples[i].textLike)
    && (forall i :: first < i <= last ==> !Gap(samples, i))
  }

  ghost predicate StartsHere(samples: seq<Sample>, first: nat) {
    first == 0 || (first <= |samples| && (!samples[first - 1].textLike || Gap(samples, first)))
  }

  ghost predicate EndsHere(samples: seq<Sample>, last: nat)
    requires last < |samples|
  {
    last == |samples| - 1 || !samples[last + 1].textLike || Gap(samples, last + 1)
  }

  /** A run that cannot be made longer on either side, of four samples and 20 seconds at least. */
  ghost predicate IsCandidate(samples: seq<Sample>, first: nat, last: nat) {
    && IsRun(samples, first, last) && StartsHere(samples, first) && EndsHere(samples, last)
    && last + 1 - first >= 4 && SatSub(samples[last].time, samples[first].time) >= MIN_ROLL_MS
  }

  datatype Span = Span(first: nat, last: nat)

  /** Exactly the long enough maximal runs, in order. */
  method Candidates(samples: seq<Sample>) returns (out: seq<Span>)
    ensures forall first: nat, last: nat :: Span(first, last) in out <==> IsCandidate(samples, first, last)
    ensures forall k, l :: 0 <= k < l < |out| ==> out[k].last < out[l].first
  {
    out := [];
    var open: Option<nat> := None;
    var i := 0;
    while i <= |samples|
      invariant i <= |samples| + 1
      invariant open.Some? ==> && i <= |samples| && open.value < i
                               && IsRun(samples, open.value, i - 1) && StartsHere(samples, open.value)
      invariant open.None? && 0 < i <= |samples| ==> !samples[i - 1].textLike
      invariant forall first: nat, last: nat :: Span(first, last) in out <==>
                last + 1 < i && IsCandidate(samples, first, last)
      invariant forall k, l :: 0 <= k < l < |out| ==> out[k].last < out[l].first
      invariant forall k :: 0 <= k < |out| ==> out[k].last < if open.Some? then open.value else i
    {
      var positive := i < |samples| && samples[i].textLike;
      var gap := i > 0 && i < |samples| && SatSub(samples[i].time, samples[i - 1].time) > 10000;
      ghost var was, before := open, out;
      if (!positive || gap) && open.Some? {
        var start := open.value;
        open := None;
        if i - start >= 4 && SatSub(samples[i - 1].time, samples[start].time) >= MIN_ROLL_MS {
          out := out + [Span(start, i - 1)];
        }
      }
      OneRunEnds(samples, i, was, before, out);
      if positive && open.None? { open := Some(i); }
      i := i + 1;
    }
  }

  /** The only run that can end right before sample `i` is the open one, and only when something ends it there. */
  lemma {:induction false} OneRunEnds(samples: seq<Sample>, i: nat, open: Option<nat>, before: seq<Span>,
                                      out: seq<Span>)
    requires i <= |samples|
    requires open.Some? ==> open.value < i && IsRun(samples, open.value, i - 1) && StartsHere(samples, open.value)
    requires open.None? && 0 < i ==> !samples[i - 1].textLike
    requires forall first: nat, last: nat :: Span(first, last) in before <==>
             last + 1 < i && IsCandidate(samples, first, last)
    requires var ends := i == |samples| || !samples[i].textLike || Gap(samples, i);
             out == if ends && open.Some? && i - open.value >= 4
                       && SatSub(samples[i - 1].time, samples[open.value].time) >= MIN_ROLL_MS
                    then before + [Span(open.value, i - 1)] else before
    ensures forall first: nat, last: nat :: Span(first, last) in out <==> last < i && IsCandidate(samples, first, last)
  {
    forall first: nat, last: nat ensures Span(first, last) in out <==> last < i && IsCandidate(samples, first, last) {
      if last + 1 == i && IsRun(samples, first, last) && StartsHere(samples, first) {
        assert samples[last].textLike;
        SameStart(samples, first, open.value, last);
      }
    }
  }

  lemma {:induction false} SameStart(samples: seq<Sample>, a: nat, b: nat, last: nat)
    requires IsRun(samples, a, last) && IsRun(samples, b, last) && StartsHere(samples, a) && StartsHere(samples, b)
    ensures a == b
  {
  }
}
