/** Screening frames for text rows: the flood fill that collects bright shapes, the text lines they line up in, and
    the runs of text-like samples. Fractions of the frame are not part of this model. */
module Visual {
  import opened Machine

  // ----- pixels and their neighbours -----

  predicate Grid(mask: seq<bool>, w: nat, h: nat) { w >= 1 && h >= 1 && |mask| == w * h }

  /** The up to four pixels beside pixel `i`: left, right, above, below. */
  function Neighbors(w: nat, h: nat, i: nat): seq<nat>
    requires w >= 1
  {
    (if i % w >= 1 then [i - 1] else []) + (if i % w + 1 < w then [i + 1] else []) +
    (if i / w >= 1 then [Above(i, w)] else []) + (if i / w + 1 < h then [i + w] else [])
  }

  function Above(i: nat, w: nat): nat
    requires w >= 1 && i / w >= 1
  {
    RowAbove(i, w);
    i - w
  }

  lemma {:induction false} RowAbove(i: nat, w: nat)
    requires w >= 1 && i / w >= 1
    ensures i >= w
  {
    assert i == w * (i / w) + i % w;
    MulMono(w, 1, i / w);
  }

  ghost predicate Adjacent(w: nat, h: nat, i: nat, j: nat)
    requires w >= 1
  {
    j in Neighbors(w, h, i)
  }

  lemma {:induction false} NeighborsAre(w: nat, h: nat, i: nat, j: nat)
    requires w >= 1
    ensures Adjacent(w, h, i, j) <==>
              || (i % w >= 1 && j == i - 1) || (i % w + 1 < w && j == i + 1)
              || (i / w >= 1 && j == i - w) || (i / w + 1 < h && j == i + w)
  {
    if i / w >= 1 { RowAbove(i, w); }
  }

  /** Pixels side by side in a row. */
  lemma {:induction false} Across(w: nat, h: nat, y: nat, x: nat)
    requires x + 1 < w && y < h
    ensures var i := w * y + x; i + 1 < w * h && Adjacent(w, h, i, i + 1) && Adjacent(w, h, i + 1, i)
  {
    hide Adjacent;
    var i := w * y + x;
    BackInGrid(w, h, y, x + 1);
    DivIs(i, w, y, x);
    DivIs(i + 1, w, y, x + 1);
    NeighborsAre(w, h, i, i + 1);
    NeighborsAre(w, h, i + 1, i);
  }

  /** Pixels one above the other. */
  lemma {:induction false} Down(w: nat, h: nat, y: nat, x: nat)
    requires x < w && y + 1 < h
    ensures var i := w * y + x; i + w < w * h && Adjacent(w, h, i, i + w) && Adjacent(w, h, i + w, i)
  {
    hide Adjacent;
    var i := w * y + x;
    assert w * (y + 1) == w * y + w;
    BackInGrid(w, h, y + 1, x);
    DivIs(i, w, y, x);
    DivIs(i + w, w, y + 1, x);
    NeighborsAre(w, h, i, i + w);
    NeighborsAre(w, h, i + w, i);
  }

  lemma {:induction false} Beside(w: nat, h: nat, i: nat, j: nat)
    requires w >= 1 && h >= 1 && i < w * h && Adjacent(w, h, i, j)
    ensures j < w * h && Adjacent(w, h, j, i)
  {
    hide *;
    var y, x := Place(w, h, i);
    NeighborsAt(w, h, y, x, i, j);
    BesideAt(w, h, y, x, i, j);
  }

  /** The row and the column of a pixel. */
  lemma {:induction false} Place(w: nat, h: nat, i: nat) returns (y: nat, x: nat)
    requires w >= 1 && i < w * h
    ensures x < w && y < h && i == w * y + x
  {
    InGrid(w, h, i);
    y, x := i / w, i % w;
  }

  lemma {:induction false} NeighborsAt(w: nat, h: nat, y: nat, x: nat, i: nat, j: nat)
    requires x < w && i == w * y + x
    ensures Adjacent(w, h, i, j) <==>
              (x >= 1 && j == i - 1) || (x + 1 < w && j == i + 1) || (y >= 1 && j == i - w) || (y + 1 < h && j == i + w)
  {
    hide Adjacent;
    DivIs(i, w, y, x);
    NeighborsAre(w, h, i, j);
  }

  lemma {:induction false} BesideAt(w: nat, h: nat, y: nat, x: nat, i: nat, j: nat)
    requires x < w && y < h && i == w * y + x
    requires (x >= 1 && j == i - 1) || (x + 1 < w && j == i + 1) || (y >= 1 && j == i - w) || (y + 1 < h && j == i + w)
    ensures j < w * h && Adjacent(w, h, j, i)
  {
    hide Adjacent;
    if x >= 1 && j == i - 1 {
      Across(w, h, y, x - 1);
    } else if x + 1 < w && j == i + 1 {
      Across(w, h, y, x);
    } else if y >= 1 && j == i - w {
      Distribute(w, y);
      Down(w, h, y - 1, x);
    } else {
      Down(w, h, y, x);
    }
  }

  lemma {:induction false} Distribute(w: nat, y: nat)
    requires y >= 1
    ensures w * (y - 1) == w * y - w
  {
  }

  lemma {:induction false} InGrid(w: nat, h: nat, i: nat)
    requires w >= 1 && i < w * h
    ensures i / w < h
  {
    assert i == w * (i / w) + i % w;
    if i / w >= h { MulMono(w, h, i / w); }
  }

  lemma {:induction false} BackInGrid(w: nat, h: nat, y: nat, x: nat)
    requires x < w && y < h
    ensures w * y + x < w * h
  {
    MulMono(w, y + 1, h);
    assert w * y + w == w * (y + 1);
  }

  // ----- connected bright pixels -----

  /** A walk over bright pixels, each beside the one before. */
  ghost predicate Path(mask: seq<bool>, w: nat, h: nat, p: seq<nat>)
    requires w >= 1
  {
    && p != [] && (forall k :: 0 <= k < |p| ==> p[k] < |mask| && mask[p[k]])
    && (forall k :: 0 <= k < |p| - 1 ==> Adjacent(w, h, p[k], p[k + 1]))
  }

  ghost predicate Connected(mask: seq<bool>, w: nat, h: nat, a: nat, b: nat)
    requires w >= 1
  {
    exists p :: Path(mask, w, h, p) && p[0] == a && p[|p| - 1] == b
  }

  lemma {:induction false} ConnectedSelf(mask: seq<bool>, w: nat, h: nat, a: nat)
    requires w >= 1 && a < |mask| && mask[a]
    ensures Connected(mask, w, h, a, a)
  {
    assert Path(mask, w, h, [a]) && [a][0] == a && [a][|[a]| - 1] == a;
  }

  lemma {:induction false} ConnectedStep(mask: seq<bool>, w: nat, h: nat, a: nat, b: nat, c: nat)
    requires w >= 1 && Connected(mask, w, h, a, b) && Adjacent(w, h, b, c) && c < |mask| && mask[c]
    ensures Connected(mask, w, h, a, c)
  {
    var p :| Path(mask, w, h, p) && p[0] == a && p[|p| - 1] == b;
    var q := p + [c];
    assert q[0] == a && q[|q| - 1] == c;
    forall k | 0 <= k < |q| - 1 ensures Adjacent(w, h, q[k], q[k + 1]) {
      if k < |p| - 1 { assert q[k] == p[k] && q[k + 1] == p[k + 1]; }
    }
    assert Path(mask, w, h, q);
  }

  /** A set of pixels that no bright neighbour leaves keeps every walk that starts in it. */
  ghost predicate Closed(mask: seq<bool>, w: nat, h: nat, member: seq<bool>)
    requires w >= 1 && |member| == |mask|
  {
    forall i, j :: 0 <= i < |mask| && 0 <= j < |mask| && member[i] && mask[j] && Adjacent(w, h, i, j) ==> member[j]
  }

  lemma {:induction false} WalkStays(mask: seq<bool>, w: nat, h: nat, member: seq<bool>, p: seq<nat>, k: nat)
    requires w >= 1 && |member| == |mask| && Closed(mask, w, h, member) && Path(mask, w, h, p) && member[p[0]] &&
             k < |p|
    ensures member[p[k]]
  {
    if k > 0 {
      WalkStays(mask, w, h, member, p, k - 1);
      assert Adjacent(w, h, p[k - 1], p[k - 1 + 1]);
    }
  }

  lemma {:induction false} ClosedKeeps(mask: seq<bool>, w: nat, h: nat, member: seq<bool>, a: nat, b: nat)
    requires w >= 1 && |member| == |mask| && Closed(mask, w, h, member) && Connected(mask, w, h, a, b)
    ensures a < |mask| && b < |mask| && (member[a] ==> member[b])
  {
    var p :| Path(mask, w, h, p) && p[0] == a && p[|p| - 1] == b;
    if member[a] { WalkStays(mask, w, h, member, p, |p| - 1); }
  }

  ghost predicate Distinct(s: seq<nat>) { forall i, j :: 0 <= i < j < |s| ==> s[i] != s[j] }

  /** The 4-connected component of a pixel, each of its pixels once. */
  ghost predicate IsComponent(mask: seq<bool>, w: nat, h: nat, seed: nat, cells: seq<nat>)
    requires w >= 1
  {
    Distinct(cells) && forall i :: i in cells <==> Connected(mask, w, h, seed, i)
  }

  lemma {:induction false} ConnectedAlong(mask: seq<bool>, w: nat, h: nat, a: nat, p: seq<nat>)
    requires w >= 1 && Path(mask, w, h, p) && Connected(mask, w, h, a, p[0])
    ensures Connected(mask, w, h, a, p[|p| - 1])
    decreases |p|
  {
    hide Connected, Adjacent;
    if |p| > 1 {
      ConnectedStep(mask, w, h, a, p[0], p[1]);
      var rest := p[1..];
      assert forall k :: 0 <= k < |rest| ==> rest[k] == p[k + 1];
      ConnectedAlong(mask, w, h, a, rest);
    }
  }

  lemma {:induction false} ConnectedBack(mask: seq<bool>, w: nat, h: nat, p: seq<nat>)
    requires Grid(mask, w, h) && Path(mask, w, h, p)
    ensures Connected(mask, w, h, p[|p| - 1], p[0])
    decreases |p|
  {
    hide Connected, Adjacent, Grid;
    GridIsWide(mask, w, h);
    var n := |p| - 1;
    ConnectedSelf(mask, w, h, p[n]);
    if n > 0 {
      BesideInMask(mask, w, h, p[n - 1], p[n]);
      ConnectedStep(mask, w, h, p[n], p[n], p[n - 1]);
      ConnectedBack(mask, w, h, p[..n]);
      ConnectedJoins(mask, w, h, p[n], p[n - 1], p[0]);
    }
  }

  lemma {:induction false} BesideInMask(mask: seq<bool>, w: nat, h: nat, i: nat, j: nat)
    requires Grid(mask, w, h) && i < |mask| && Adjacent(w, h, i, j)
    ensures Adjacent(w, h, j, i)
  {
    hide Adjacent;
    Beside(w, h, i, j);
  }

  lemma {:induction false} ConnectedJoins(mask: seq<bool>, w: nat, h: nat, a: nat, b: nat, c: nat)
    requires w >= 1 && Connected(mask, w, h, a, b) && Connected(mask, w, h, b, c)
    ensures Connected(mask, w, h, a, c)
  {
    hide Adjacent;
    var p :| Path(mask, w, h, p) && p[0] == b && p[|p| - 1] == c;
    ConnectedAlong(mask, w, h, a, p);
  }

  lemma {:induction false} ConnectedTurns(mask: seq<bool>, w: nat, h: nat, a: nat, b: nat)
    requires Grid(mask, w, h) && Connected(mask, w, h, a, b)
    ensures Connected(mask, w, h, b, a)
  {
    hide Adjacent;
    var p :| Path(mask, w, h, p) && p[0] == a && p[|p| - 1] == b;
    ConnectedBack(mask, w, h, p);
  }

  datatype Bounds = Bounds(left: nat, right: nat, top: nat, bottom: nat)

  /** The smallest box around the cells: it holds all of them and each side touches one. */
  ghost predicate IsBoundingBox(w: nat, cells: seq<nat>, b: Bounds)
    requires w >= 1
  {
    && (forall k :: 0 <= k < |cells| ==> b.left <= cells[k] % w <= b.right && b.top <= cells[k] / w <= b.bottom)
    && (exists k :: 0 <= k < |cells| && cells[k] % w == b.left) &&
       (exists k :: 0 <= k < |cells| && cells[k] % w == b.right)
    && (exists k :: 0 <= k < |cells| && cells[k] / w == b.top) &&
       (exists k :: 0 <= k < |cells| && cells[k] / w == b.bottom)
  }

  /** Bounds of the first `n` cells, starting from those of the first. */
  function BoundsOf(w: nat, cells: seq<nat>, n: nat): Bounds
    requires w >= 1 && 0 < |cells| && n <= |cells|
    decreases n
  {
    if n == 0 then Bounds(cells[0] % w, cells[0] % w, cells[0] / w, cells[0] / w) else
      Widened(BoundsOf(w, cells, n - 1), cells[n - 1] % w, cells[n - 1] / w)
  }

  function Widened(b: Bounds, x: nat, y: nat): Bounds {
    Bounds(Min(b.left, x), Max(b.right, x), Min(b.top, y), Max(b.bottom, y))
  }

  lemma {:induction false} BoundsHold(w: nat, cells: seq<nat>, n: nat)
    requires w >= 1 && 0 < |cells| && n <= |cells|
    ensures var b := BoundsOf(w, cells, n);
            && (forall k :: 0 <= k < n ==> b.left <= cells[k] % w <= b.right && b.top <= cells[k] / w <= b.bottom)
            && (exists k :: 0 <= k < |cells| && cells[k] % w == b.left) &&
               (exists k :: 0 <= k < |cells| && cells[k] % w == b.right)
            && (exists k :: 0 <= k < |cells| && cells[k] / w == b.top) &&
               (exists k :: 0 <= k < |cells| && cells[k] / w == b.bottom)
    decreases n
  {
    assert cells[0] % w == cells[0] % w && cells[0] / w == cells[0] / w;
    if n > 0 {
      BoundsHold(w, cells, n - 1);
      var x, y := cells[n - 1] % w, cells[n - 1] / w;
      assert cells[n - 1] % w == x && cells[n - 1] / w == y;
    }
  }

  lemma {:induction false} BoundsGrow(w: nat, cells: seq<nat>, more: seq<nat>, n: nat)
    requires w >= 1 && 0 < |cells| && n <= |cells|
    ensures BoundsOf(w, cells + more, n) == BoundsOf(w, cells, n)
    decreases n
  {
    if n > 0 { BoundsGrow(w, cells, more, n - 1); }
  }

  // ----- the flood fill -----

  /** Marks the bright ones of a list that are not marked yet, and returns them. */
  method PushUnvisited(mask: seq<bool>, visited: array<bool>, list: seq<nat>) returns (more: seq<nat>)
    requires visited.Length == |mask| && forall k :: 0 <= k < |list| ==> list[k] < |mask|
    modifies visited
    ensures forall i :: 0 <= i < |mask| ==> visited[i] == (old(visited[i]) || i in more)
    ensures forall i :: i in more ==> i in list && i < |mask| && mask[i] && !old(visited[i])
    ensures forall k :: 0 <= k < |list| && mask[list[k]] ==> visited[list[k]]
    ensures Distinct(more)
  {
    more := [];
    var k := 0;
    while k < |list|
      invariant k <= |list| && Distinct(more)
      invariant forall i :: 0 <= i < |mask| ==> visited[i] == (old(visited[i]) || i in more)
      invariant forall i :: i in more ==> i in list && i < |mask| && mask[i] && !old(visited[i])
      invariant forall l :: 0 <= l < k && mask[list[l]] ==> visited[list[l]]
    {
      if !visited[list[k]] && mask[list[k]] {
        visited[list[k]] := true;
        more := more + [list[k]];
      }
      k := k + 1;
    }
  }

  /** Nothing that is marked has an unmarked bright neighbour, and only bright pixels are marked. */
  ghost predicate Settled(mask: seq<bool>, w: nat, h: nat, marked: seq<bool>)
    requires w >= 1 && |marked| == |mask|
  {
    Closed(mask, w, h, marked) && forall i :: 0 <= i < |mask| && marked[i] ==> mask[i]
  }

  ghost predicate Marked(was: seq<bool>, now: seq<bool>, cells: seq<nat>)
    requires |was| == |now|
  {
    && (forall i :: 0 <= i < |now| ==> now[i] == (was[i] || i in cells))
    && (forall i :: i in cells ==> i < |now| && !was[i])
  }

  /** Cells reached from the seed, all of whose bright neighbours are marked, are its whole component. */
  lemma {:induction false} AllReached(mask: seq<bool>, w: nat, h: nat, was: seq<bool>, now: seq<bool>, seed: nat,
                                      cells: seq<nat>)
    requires Grid(mask, w, h) && |was| == |now| == |mask| && Settled(mask, w, h, was) && Marked(was, now, cells)
    requires Distinct(cells) && seed in cells && forall i :: i in cells ==> Connected(mask, w, h, seed, i)
    requires forall i, j :: i in cells && 0 <= j < |mask| && mask[j] && Adjacent(w, h, i, j) ==> now[j]
    ensures IsComponent(mask, w, h, seed, cells) && Settled(mask, w, h, now)
  {
    hide Connected, Adjacent;
    forall i: nat, j: nat | i < |mask| && j < |mask| && now[i] && mask[j] && Adjacent(w, h, i, j) ensures now[j] {
      if was[i] { assert was[j]; }
    }
    assert Settled(mask, w, h, now) by {
      forall i: nat | i < |mask| && now[i] ensures mask[i] {
        if i in cells { ClosedKeeps(mask, w, h, mask, seed, i); BrightEnds(mask, w, h, seed, i); }
      }
    }
    forall i: nat | Connected(mask, w, h, seed, i) ensures i in cells {
      ClosedKeeps(mask, w, h, now, seed, i);
      BrightEnds(mask, w, h, seed, i);
      if was[i] { Backwards(mask, w, h, was, seed, i); }
    }
  }

  lemma {:induction false} BrightEnds(mask: seq<bool>, w: nat, h: nat, a: nat, b: nat)
    requires w >= 1 && Connected(mask, w, h, a, b)
    ensures a < |mask| && b < |mask| && mask[a] && mask[b]
  {
  }

  /** A walk that ends on a marked pixel started on one. */
  lemma {:induction false} Backwards(mask: seq<bool>, w: nat, h: nat, marked: seq<bool>, a: nat, b: nat)
    requires Grid(mask, w, h) && |marked| == |mask| && Closed(mask, w, h, marked) && Connected(mask, w, h, a, b)
    requires b < |mask| && marked[b]
    ensures a < |mask| && marked[a]
  {
    var p :| Path(mask, w, h, p) && p[0] == a && p[|p| - 1] == b;
    var k: nat := |p| - 1;
    while k > 0
      invariant k < |p| && marked[p[k]]
    {
      assert Adjacent(w, h, p[k - 1], p[k - 1 + 1]);
      Beside(w, h, p[k - 1], p[k]);
      k := k - 1;
    }
  }

  /** What the queue is like after `index` of its cells have been looked at. */
  ghost predicate Flooding(mask: seq<bool>, w: nat, h: nat, was: seq<bool>, now: seq<bool>, queue: seq<nat>, index: nat)
    requires w >= 1 && |was| == |now| == |mask|
  {
    && queue != [] && index <= |queue| && Distinct(queue) && Marked(was, now, queue)
    && (forall i :: i in queue ==> i < |mask| && mask[i] && Connected(mask, w, h, queue[0], i))
    && (forall k: nat, j: nat :: k < index && j < |mask| && mask[j] && Adjacent(w, h, queue[k], j) ==> now[j])
  }

  lemma {:induction false} FloodStarts(mask: seq<bool>, w: nat, h: nat, was: seq<bool>, initial: nat)
    requires w >= 1 && |was| == |mask| && initial < |mask| && mask[initial] && !was[initial]
    ensures Flooding(mask, w, h, was, was[initial := true], [initial], 0)
  {
    hide Connected, Adjacent;
    ConnectedSelf(mask, w, h, initial);
  }

  /** The cell at `index` has been looked at: the new ones among its neighbours are marked and queued. */
  lemma {:induction false} FloodStep(mask: seq<bool>, w: nat, h: nat, was: seq<bool>, now: seq<bool>, after: seq<bool>,
                                     queue: seq<nat>, index: nat, more: seq<nat>)
    requires w >= 1 && |was| == |now| == |after| == |mask| && Flooding(mask, w, h, was, now, queue, index) &&
             index < |queue|
    requires Distinct(more) && Marked(now, after, more)
    requires forall i :: i in more ==> Adjacent(w, h, queue[index], i) && i < |mask| && mask[i]
    requires forall j: nat :: j < |mask| && mask[j] && Adjacent(w, h, queue[index], j) ==> after[j]
    ensures Flooding(mask, w, h, was, after, queue + more, index + 1)
  {
    hide Connected, Adjacent;
    var all := queue + more;
    assert queue[index] in queue;
    forall i | i in more ensures Connected(mask, w, h, all[0], i) {
      ConnectedStep(mask, w, h, queue[0], queue[index], i);
    }
    assert Distinct(all) by {
      forall i, j | 0 <= i < j < |all| ensures all[i] != all[j] {
        if i < |queue| && j >= |queue| { assert all[i] in queue && all[j] in more; }
      }
    }
  }

  lemma {:induction false} FloodEnds(mask: seq<bool>, w: nat, h: nat, was: seq<bool>, now: seq<bool>, queue: seq<nat>)
    requires Grid(mask, w, h) && |was| == |now| == |mask| && Flooding(mask, w, h, was, now, queue, |queue|) &&
             Settled(mask, w, h, was)
    ensures IsComponent(mask, w, h, queue[0], queue) && Settled(mask, w, h, now) && Marked(was, now, queue)
  {
    hide Connected, Adjacent, Settled, IsComponent;
    forall i: nat, j: nat | i in queue && j < |mask| && mask[j] && Adjacent(w, h, i, j) ensures now[j] {
      var k :| 0 <= k < |queue| && queue[k] == i;
    }
    AllReached(mask, w, h, was, now, queue[0], queue);
  }

  ghost function Elements(s: seq<nat>): set<nat> { set i | i in s }

  ghost function Below(n: nat): (r: set<nat>)
    ensures forall i: nat :: i in r <==> i < n
  {
    if n == 0 then {} else Below(n - 1) + {n - 1}
  }

  /** Different pixels of a grid cannot be more than it has. */
  lemma {:induction false} DistinctFits(s: seq<nat>, n: nat)
    requires Distinct(s) && forall i :: i in s ==> i < n
    ensures |s| <= n
  {
    SizeOfDistinct(s);
    SizeBelow(n);
    SubsetSize(Elements(s), Below(n));
  }

  lemma {:induction false} SizeOfDistinct(s: seq<nat>)
    requires Distinct(s)
    ensures |Elements(s)| == |s|
  {
    if s != [] {
      var front, last := s[..|s| - 1], s[|s| - 1];
      SizeOfDistinct(front);
      assert Elements(s) == Elements(front) + {last};
      assert last !in front;
    }
  }

  lemma {:induction false} SizeBelow(n: nat)
    ensures |Below(n)| == n
  {
    if n > 0 { SizeBelow(n - 1); }
  }

  lemma {:induction false} SubsetSize<T>(a: set<T>, b: set<T>)
    requires a <= b
    ensures |a| <= |b|
    decreases |a|
  {
    if a != {} {
      var x :| x in a;
      SubsetSize(a - {x}, b - {x});
    }
  }

  lemma {:induction false} CellsInGrid(mask: seq<bool>, w: nat, h: nat, was: seq<bool>, now: seq<bool>,
                                       queue: seq<nat>, index: nat)
    requires Grid(mask, w, h) && |was| == |now| == |mask| && Flooding(mask, w, h, was, now, queue, index)
    ensures 0 < |queue| <= |mask| && index <= |queue| && (index < |queue| ==> queue[index] < |mask|)
  {
    hide Connected, Adjacent;
    DistinctFits(queue, |mask|);
    if index < |queue| { assert queue[index] in queue; }
  }

  lemma {:induction false} GridIsWide(mask: seq<bool>, w: nat, h: nat)
    requires Grid(mask, w, h)
    ensures w >= 1
  {
  }

  /** Marks the new bright neighbours of one cell. */
  method Spread(mask: seq<bool>, w: nat, h: nat, current: nat, visited: array<bool>) returns (more: seq<nat>)
    requires Grid(mask, w, h) && visited.Length == |mask| && current < |mask|
    modifies visited
    ensures Distinct(more) && Marked(old(visited[..]), visited[..], more)
    ensures forall i :: i in more ==> Adjacent(w, h, current, i) && i < |mask| && mask[i]
    ensures forall j: nat :: j < |mask| && mask[j] && Adjacent(w, h, current, j) ==> visited[j]
  {
    hide Neighbors;
    NeighborsInGrid(w, h, current);
    more := PushUnvisited(mask, visited, Neighbors(w, h, current));
  }

  method FloodFrom(mask: seq<bool>, w: nat, h: nat, initial: nat,
                   visited: array<bool>) returns (queue: seq<nat>, bounds: Bounds)
    requires Grid(mask, w, h) && visited.Length == |mask| && Settled(mask, w, h, visited[..])
    requires initial < |mask| && mask[initial] && !visited[initial]
    modifies visited
    ensures queue != [] && queue[0] == initial
    ensures IsComponent(mask, w, h, initial, queue) && IsBoundingBox(w, queue, bounds)
    ensures Settled(mask, w, h, visited[..]) && Marked(old(visited[..]), visited[..], queue)
  {
    hide Adjacent, Connected, Settled, BoundsOf, IsBoundingBox, IsComponent, Neighbors, Flooding, Marked, Distinct,
         Widened, Grid;
    GridIsWide(mask, w, h);
    ghost var was := visited[..];
    visited[initial] := true;
    assert visited[..] == was[initial := true];
    queue := [initial];
    bounds := Bounds(initial % w, initial % w, initial / w, initial / w);
    FirstBounds(w, initial);
    FloodStarts(mask, w, h, was, initial);
    CellsInGrid(mask, w, h, was, visited[..], queue, 0);
    var index := 0;
    while index < |queue|
      invariant 0 < |queue| <= |mask| && index <= |queue| && queue[0] == initial
      invariant Flooding(mask, w, h, was, visited[..], queue, index)
      invariant bounds == BoundsOf(w, queue, index)
      decreases |mask| - |queue|, |queue| - index
    {
      ghost var now := visited[..];
      CellsInGrid(mask, w, h, was, now, queue, index);
      var current := queue[index];
      bounds := Widened(bounds, current % w, current / w);
      var more := Spread(mask, w, h, current, visited);
      BoundsNext(w, queue, more, index);
      FloodStep(mask, w, h, was, now, visited[..], queue, index, more);
      queue := queue + more;
      index := index + 1;
      CellsInGrid(mask, w, h, was, visited[..], queue, index);
    }
    FloodEnds(mask, w, h, was, visited[..], queue);
    BoxOf(w, queue);
  }

  lemma {:induction false} NeighborsInGrid(w: nat, h: nat, i: nat)
    requires w >= 1 && h >= 1 && i < w * h
    ensures forall k :: 0 <= k < |Neighbors(w, h, i)| ==> Neighbors(w, h, i)[k] < w * h
  {
    forall k | 0 <= k < |Neighbors(w, h, i)| ensures Neighbors(w, h, i)[k] < w * h {
      Beside(w, h, i, Neighbors(w, h, i)[k]);
    }
  }

  lemma {:induction false} BoundsNext(w: nat, queue: seq<nat>, more: seq<nat>, n: nat)
    requires w >= 1 && n < |queue|
    ensures BoundsOf(w, queue + more, n + 1) == Widened(BoundsOf(w, queue, n), queue[n] % w, queue[n] / w)
  {
    BoundsGrow(w, queue, more, n);
  }

  lemma {:induction false} BoxOf(w: nat, queue: seq<nat>)
    requires w >= 1 && queue != []
    ensures IsBoundingBox(w, queue, BoundsOf(w, queue, |queue|))
  {
    BoundsHold(w, queue, |queue|);
  }

  lemma {:induction false} FirstBounds(w: nat, i: nat)
    requires w >= 1
    ensures BoundsOf(w, [i], 0) == Bounds(i % w, i % w, i / w, i / w)
  {
  }
}
