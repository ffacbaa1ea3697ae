/** Segment windows: cutting at keyframes, collapsing short windows, and accounting bytes to them. */
module Windows {
  import opened Machine
  import opened Media

  const MIN_SEGMENT_MS := 1_000

  function Duration(w: SegmentWindow): u64 { SatSub(w.endMs, w.startMs) }

  // ----- what a plan of windows must be -----

  /** Each window ends where the next one starts, no window runs backwards, from `from` to `to`. */
  ghost predicate Chain(ws: seq<SegmentWindow>, from: u64, to: u64) {
    && ws != []
    && ws[0].startMs == from && ws[|ws| - 1].endMs == to
    && (forall i :: 0 <= i < |ws| ==> ws[i].startMs <= ws[i].endMs)
    && (forall i :: 0 < i < |ws| ==> ws[i - 1].endMs == ws[i].startMs)
  }

  ghost predicate Indexed(ws: seq<SegmentWindow>) {
    forall i :: 0 <= i < |ws| ==> ws[i].index == i
  }

  /** No window is short, unless it is the only one. */
  ghost predicate LongEnough(ws: seq<SegmentWindow>, min: u64) {
    |ws| > 1 ==> forall w <- ws :: Duration(w) >= min
  }

  lemma {:induction false} ChainStarts(ws: seq<SegmentWindow>, from: u64, to: u64, i: nat, j: nat)
    requires Chain(ws, from, to) && i < j < |ws|
    ensures ws[i].endMs <= ws[j].startMs
    decreases j - i
  {
    if i + 1 < j { ChainStarts(ws, from, to, i + 1, j); }
  }

  /** Exactly one of the windows holds the time. */
  ghost predicate HeldOnce(ws: seq<SegmentWindow>, ms: u64) {
    exists i :: 0 <= i < |ws| && Holds(ws[i], ms) && forall j :: 0 <= j < |ws| && Holds(ws[j], ms) ==> j == i
  }

  /** A time inside a chain lies in exactly one of its windows. */
  lemma {:induction false} ChainHoldsOnce(ws: seq<SegmentWindow>, from: u64, to: u64, ms: u64)
    requires Chain(ws, from, to) && from <= ms < to
    ensures HeldOnce(ws, ms)
  {
    var i := LastStartingBy(ws, from, to, ms, |ws| - 1);
    forall j | 0 <= j < |ws| && Holds(ws[j], ms) ensures j == i {
      if i < j { ChainStarts(ws, from, to, i, j); }
      if j < i { ChainStarts(ws, from, to, j, i); }
    }
  }

  lemma {:induction false} LastStartingBy(ws: seq<SegmentWindow>, from: u64, to: u64, ms: u64, k: nat) returns (i: nat)
    requires Chain(ws, from, to) && from <= ms < to && k < |ws| && ms < ws[k].endMs
    ensures i < |ws| && Holds(ws[i], ms)
  {
    if ws[k].startMs <= ms { return k; }
    assert k > 0 && ws[k - 1].endMs == ws[k].startMs;
    i := LastStartingBy(ws, from, to, ms, k - 1);
  }

  // ----- collapsing -----

  function Absorbed(out: seq<SegmentWindow>, ws: seq<SegmentWindow>, min: u64): seq<SegmentWindow>
    decreases |ws|
  {
    if ws == [] then out
    else if Duration(ws[0]) < min && out != [] then
      Absorbed(out[..|out| - 1] + [out[|out| - 1].(endMs := ws[0].endMs)], ws[1..], min)
    else Absorbed(out + [ws[0]], ws[1..], min)
  }

  function FirstMerged(ws: seq<SegmentWindow>, min: u64): seq<SegmentWindow> {
    if |ws| > 1 && Duration(ws[0]) < min then [ws[1].(startMs := ws[0].startMs)] + ws[2..] else ws
  }

  function Renumbered(ws: seq<SegmentWindow>): (r: seq<SegmentWindow>)
    ensures |r| == |ws|
  {
    if ws == [] then [] else
      Renumbered(ws[..|ws| - 1]) + [ws[|ws| - 1].(index := |ws| - 1)]
  }

  function Collapsed(ws: seq<SegmentWindow>, min: u64): seq<SegmentWindow> {
    if |ws| <= 1 || min == 0 then ws else Renumbered(FirstMerged(Absorbed([], ws, min), min))
  }

  lemma {:induction false} RenumberedAt(ws: seq<SegmentWindow>, i: nat)
    requires i < |ws|
    ensures Renumbered(ws)[i] == ws[i].(index := i)
  {
    if i < |ws| - 1 { RenumberedAt(ws[..|ws| - 1], i); }
  }

  lemma {:induction false} RenumberedKeeps(ws: seq<SegmentWindow>, from: u64, to: u64, min: u64)
    ensures Indexed(Renumbered(ws))
    ensures Chain(ws, from, to) ==> Chain(Renumbered(ws), from, to)
    ensures LongEnough(ws, min) ==> LongEnough(Renumbered(ws), min)
  {
    var r := Renumbered(ws);
    forall i | 0 <= i < |ws| ensures r[i] == ws[i].(index := i) && ws[i] in ws { RenumberedAt(ws, i); }
    if LongEnough(ws, min) && |r| > 1 {
      forall w | w in r ensures Duration(w) >= min {
        var i :| 0 <= i < |r| && r[i] == w;
      }
    }
  }

  method CollapseShortWindows(ws: seq<SegmentWindow>, min: u64) returns (r: seq<SegmentWindow>)
    ensures r == Collapsed(ws, min)
  {
    if |ws| <= 1 || min == 0 { return ws; }
    var out := Absorb(ws, min);
    if |out| > 1 && SatSub(out[0].endMs, out[0].startMs) < min {
      var first := out[0];
      out := out[1..];
      out := out[0 := out[0].(startMs := first.startMs)];
    }
    assert out == FirstMerged(Absorbed([], ws, min), min);
    r := Renumber(out);
  }

  method Absorb(ws: seq<SegmentWindow>, min: u64) returns (out: seq<SegmentWindow>)
    ensures out == Absorbed([], ws, min)
  {
    out := [];
    for i := 0 to |ws|
      invariant Absorbed(out, ws[i..], min) == Absorbed([], ws, min)
    {
      assert ws[i..][0] == ws[i] && ws[i..][1..] == ws[i + 1..];
      var window := ws[i];
      if SatSub(window.endMs, window.startMs) < min && out != [] {
        out := out[..|out| - 1] + [out[|out| - 1].(endMs := window.endMs)];
      } else {
        out := out + [window];
      }
    }
    assert ws[|ws|..] == [];
  }

  method Renumber(ws: seq<SegmentWindow>) returns (r: seq<SegmentWindow>)
    ensures r == Renumbered(ws)
  {
    r := ws;
    for index := 0 to |r|
      invariant |r| == |ws|
      invariant forall i :: 0 <= i < |ws| ==> r[i] == if i < index then ws[i].(index := i) else ws[i]
    {
      r := r[index := r[index].(index := index)];
    }
    forall i | 0 <= i < |ws| ensures r[i] == Renumbered(ws)[i] { RenumberedAt(ws, i); }
  }

  /** What absorbing keeps: a chain, with only the first window possibly short. */
  ghost predicate Absorbing(out: seq<SegmentWindow>, from: u64, at: u64, min: u64) {
    Chain(out, from, at) && forall i :: 0 < i < |out| ==> Duration(out[i]) >= min
  }

  lemma {:induction false} ChainTail(ws: seq<SegmentWindow>, from: u64, to: u64)
    requires Chain(ws, from, to) && |ws| > 1
    ensures Chain(ws[1..], ws[0].endMs, to)
  {
    forall i | 0 < i < |ws[1..]| ensures ws[1..][i - 1].endMs == ws[1..][i].startMs {
      assert ws[i].endMs == ws[i + 1].startMs;
    }
  }

  lemma {:induction false} AbsorbOne(out: seq<SegmentWindow>, w: SegmentWindow, from: u64, at: u64, min: u64)
    requires Absorbing(out, from, at, min) && at == w.startMs <= w.endMs
    ensures Duration(w) < min ==> Absorbing(out[..|out| - 1] + [out[|out| - 1].(endMs := w.endMs)], from, w.endMs, min)
    ensures Duration(w) >= min ==> Absorbing(out + [w], from, w.endMs, min)
  {
  }

  lemma {:induction false} AbsorbedChain(out: seq<SegmentWindow>, ws: seq<SegmentWindow>, from: u64, at: u64, to: u64,
                                         min: u64)
    requires Absorbing(out, from, at, min)
    requires if ws == [] then at == to else Chain(ws, at, to)
    ensures Absorbing(Absorbed(out, ws, min), from, to, min)
    decreases |ws|
  {
    if ws != [] {
      if |ws| > 1 { ChainTail(ws, at, to); }
      AbsorbOne(out, ws[0], from, at, min);
      var next := if Duration(ws[0]) < min then out[..|out| - 1] + [out[|out| - 1].(endMs := ws[0].endMs)]
                  else out + [ws[0]];
      AbsorbedChain(next, ws[1..], from, ws[0].endMs, to, min);
    }
  }

  /** Collapsing a chain keeps its ends and its contiguity, leaves no short window unless one window is all there
      is, and numbers the windows from zero. */
  lemma {:induction false} CollapseKeepsChain(ws: seq<SegmentWindow>, from: u64, to: u64, min: u64)
    requires Chain(ws, from, to)
    ensures var r := Collapsed(ws, min);
            && Chain(r, from, to) && LongEnough(r, min)
            && (Indexed(ws) || (|ws| > 1 && min > 0) ==> Indexed(r))
  {
    if |ws| > 1 && min > 0 {
      ChainTail(ws, from, to);
      assert [] + [ws[0]] == [ws[0]];
      assert Absorbed([], ws, min) == Absorbed([ws[0]], ws[1..], min);
      AbsorbedChain([ws[0]], ws[1..], from, ws[0].endMs, to, min);
      MergedChain(Absorbed([], ws, min), from, to, min);
      RenumberedKeeps(FirstMerged(Absorbed([], ws, min), min), from, to, min);
    }
  }

  lemma {:induction false} MergedIsChain(out: seq<SegmentWindow>, from: u64, to: u64, min: u64)
    requires Chain(out, from, to)
    ensures Chain(FirstMerged(out, min), from, to)
  {
    hide Duration;
    var merged := FirstMerged(out, min);
    if |out| > 1 && Duration(out[0]) < min {
      assert out[0].endMs == out[1].startMs;
      assert forall i :: 1 <= i < |merged| ==> merged[i] == out[i + 1];
      forall i | 0 < i < |merged| ensures merged[i - 1].endMs == merged[i].startMs {
        assert out[i].endMs == out[i + 1].startMs;
      }
    }
  }

  lemma {:induction false} MergedChain(out: seq<SegmentWindow>, from: u64, to: u64, min: u64)
    requires Absorbing(out, from, to, min)
    ensures Chain(FirstMerged(out, min), from, to) && LongEnough(FirstMerged(out, min), min)
  {
    var merged := FirstMerged(out, min);
    MergedIsChain(out, from, to, min);
    if |out| > 1 && Duration(out[0]) < min {
      assert out[0].endMs == out[1].startMs;
      assert forall i :: 1 <= i < |merged| ==> merged[i] == out[i + 1];
    }
  }

  // ----- what collapsing leaves alone -----

  /** A long window's start stays a start while others are absorbed. */
  lemma {:induction false} AbsorbedKeepsStart(out: seq<SegmentWindow>, ws: seq<SegmentWindow>, min: u64,
                                              w: SegmentWindow)
    requires (exists j :: 0 <= j < |out| && out[j].startMs == w.startMs) || (w in ws && Duration(w) >= min)
    ensures exists j :: 0 <= j < |Absorbed(out, ws, min)| && Absorbed(out, ws, min)[j].startMs == w.startMs
    decreases |ws|
  {
    hide Duration;
    if ws == [] {
      assert Absorbed(out, ws, min) == out;
    } else {
      var next := if Duration(ws[0]) < min && out != [] then out[..|out| - 1] + [out[|out| - 1].(endMs := ws[0].endMs)]
                  else out + [ws[0]];
      if exists j :: 0 <= j < |out| && out[j].startMs == w.startMs {
        var j :| 0 <= j < |out| && out[j].startMs == w.startMs;
        assert next[j].startMs == w.startMs;
      } else if w == ws[0] {
        assert next[|next| - 1] == w;
      } else {
        assert w in ws[1..];
      }
      AbsorbedKeepsStart(next, ws[1..], min, w);
      assert Absorbed(out, ws, min) == Absorbed(next, ws[1..], min);
    }
  }

  /** Where a long window starts, the minimum or more behind the first start, a collapsed window starts. */
  lemma {:induction false} CollapseKeepsLongStarts(ws: seq<SegmentWindow>, from: u64, to: u64, min: u64, k: nat)
    requires Chain(ws, from, to) && k < |ws| && Duration(ws[k]) >= min && ws[k].startMs >= from + min
    ensures exists j :: 0 <= j < |Collapsed(ws, min)| && Collapsed(ws, min)[j].startMs == ws[k].startMs
  {
    hide Duration, Absorbed, Renumbered, Absorbing, Chain;
    if |ws| > 1 && min > 0 {
      var out := Absorbed([], ws, min);
      assert ws[k] in ws;
      AbsorbedKeepsStart([], ws, min, ws[k]);
      var j :| 0 <= j < |out| && out[j].startMs == ws[k].startMs;
      AbsorbedFromStart(ws, from, to, min);
      var merged := FirstMerged(out, min);
      var i: nat := if merged == out then j else j - 1;
      assert merged[i].startMs == ws[k].startMs by { MergedKeeps(out, from, to, min, j); }
      RenumberedAt(merged, i);
      assert Collapsed(ws, min)[i].startMs == ws[k].startMs;
    } else {
      assert Collapsed(ws, min)[k] == ws[k];
    }
  }

  lemma {:induction false} AbsorbedFromStart(ws: seq<SegmentWindow>, from: u64, to: u64, min: u64)
    requires Chain(ws, from, to) && |ws| > 1
    ensures Chain(Absorbed([], ws, min), from, to)
  {
    ChainTail(ws, from, to);
    assert [] + [ws[0]] == [ws[0]];
    assert Absorbed([], ws, min) == Absorbed([ws[0]], ws[1..], min);
    AbsorbedChain([ws[0]], ws[1..], from, ws[0].endMs, to, min);
  }

  lemma {:induction false} MergedKeeps(out: seq<SegmentWindow>, from: u64, to: u64, min: u64, j: nat)
    requires Chain(out, from, to) && j < |out| && out[j].startMs >= from + min && min > 0
    ensures j > 0
    ensures var merged := FirstMerged(out, min);
            if merged == out then true else j - 1 < |merged| && merged[j - 1].startMs == out[j].startMs
  {
    var merged := FirstMerged(out, min);
    if j == 1 { assert out[0].endMs == out[1].startMs; }
    if |out| > 1 && Duration(out[0]) < min { assert forall i :: 1 <= i < |merged| ==> merged[i] == out[i + 1]; }
  }

  lemma {:induction false} NothingToAbsorb(out: seq<SegmentWindow>, ws: seq<SegmentWindow>, min: u64)
    requires forall w <- ws :: Duration(w) >= min
    ensures Absorbed(out, ws, min) == out + ws
    decreases |ws|
  {
    if ws != [] {
      assert ws[0] in ws && out + ws == (out + [ws[0]]) + ws[1..];
      NothingToAbsorb(out + [ws[0]], ws[1..], min);
    }
  }

  lemma {:induction false} AlreadyNumbered(ws: seq<SegmentWindow>)
    requires Indexed(ws)
    ensures Renumbered(ws) == ws
  {
    forall i | 0 <= i < |ws| ensures Renumbered(ws)[i] == ws[i] { RenumberedAt(ws, i); }
  }

  /** Collapsing a second time changes nothing. */
  lemma {:induction false} CollapseIsIdempotent(ws: seq<SegmentWindow>, from: u64, to: u64, min: u64)
    requires Chain(ws, from, to)
    ensures Collapsed(Collapsed(ws, min), min) == Collapsed(ws, min)
  {
    var r := Collapsed(ws, min);
    CollapseKeepsChain(ws, from, to, min);
    if |r| > 1 && min > 0 {
      NothingToAbsorb([], r, min);
      assert [] + r == r && r[0] in r;
      AlreadyNumbered(r);
    }
  }

  // ----- cutting at keyframes -----

  function LatestEnd(packets: seq<PacketRef>): u64 {
    if packets == [] then 0 else Max(PacketEndMs(packets[0]), LatestEnd(packets[1..]))
  }

  /** Windows cut from `start` on: at every keyframe at least `targetMs` later; the last one reaches `latest`. */
  function Cut(packets: seq<PacketRef>, start: u64, targetMs: u64, k: nat, latest: u64): seq<SegmentWindow> {
    if packets == [] then [SegmentWindow(k, start, Max(latest, SatAdd(start, 1)))]
    else
      var ms := packets[0].pts.AsMillis();
      if packets[0].keyframe && SatSub(ms, start) >= targetMs
      then [SegmentWindow(k, start, ms)] + Cut(packets[1..], ms, targetMs, k + 1, latest)
      else Cut(packets[1..], start, targetMs, k, latest)
  }

  function SegmentWindows(packets: seq<PacketRef>, targetMs: u64): seq<SegmentWindow>
    requires packets != []
  {
    Collapsed(Cut(packets[1..], packets[0].pts.AsMillis(), targetMs, 0, LatestEnd(packets)), MIN_SEGMENT_MS)
  }

  method PlanSegmentWindows(packets: seq<PacketRef>, targetMs: u64) returns (r: seq<SegmentWindow>)
    requires packets != []
    ensures r == SegmentWindows(packets, targetMs)
  {
    var windows: seq<SegmentWindow> := [];
    var start := packets[0].pts.AsMillis();
    ghost var latest := LatestEnd(packets);
    ghost var all := Cut(packets[1..], start, targetMs, 0, latest);
    assert windows + all == all;
    for i := 1 to |packets|
      invariant windows + Cut(packets[i..], start, targetMs, |windows|, latest) == all
    {
      assert packets[i..][1..] == packets[i + 1..];
      var ms := packets[i].pts.AsMillis();
      if packets[i].keyframe && SatSub(ms, start) >= targetMs {
        var window := SegmentWindow(|windows|, start, ms);
        Regroup(windows, [window], Cut(packets[i + 1..], ms, targetMs, |windows| + 1, latest));
        windows := windows + [window];
        start := ms;
      }
    }
    assert packets[|packets|..] == [];
    var end := LatestEnd(packets);
    windows := windows + [SegmentWindow(|windows|, start, Max(end, SatAdd(start, 1)))];
    r := CollapseShortWindows(windows, MIN_SEGMENT_MS);
  }

  lemma {:induction false} ChainInFront(w: SegmentWindow, rest: seq<SegmentWindow>, to: u64)
    requires w.startMs <= w.endMs && Chain(rest, w.endMs, to)
    ensures Chain([w] + rest, w.startMs, to)
  {
    var ws := [w] + rest;
    forall i | 0 < i < |ws| ensures ws[i - 1].endMs == ws[i].startMs {
      assert ws[i] == rest[i - 1];
      if i > 1 { assert ws[i - 1] == rest[i - 2] && rest[i - 2].endMs == rest[i - 1].startMs; }
    }
    assert forall i :: 1 <= i < |ws| ==> ws[i] == rest[i - 1];
  }

  /** Windows numbered from `k` on, contiguous from `start` to the latest end at least. */
  ghost predicate CutFits(ws: seq<SegmentWindow>, start: u64, k: nat, latest: u64) {
    && ws != [] && latest <= ws[|ws| - 1].endMs
    && Chain(ws, start, ws[|ws| - 1].endMs)
    && forall i :: 0 <= i < |ws| ==> ws[i].index == k + i
  }

  lemma {:induction false} CutFitsInFront(w: SegmentWindow, rest: seq<SegmentWindow>, latest: u64)
    requires w.startMs <= w.endMs && CutFits(rest, w.endMs, w.index + 1, latest)
    ensures CutFits([w] + rest, w.startMs, w.index, latest)
  {
    hide Chain;
    ChainInFront(w, rest, rest[|rest| - 1].endMs);
    assert ([w] + rest)[|rest|] == rest[|rest| - 1];
  }

  lemma {:induction false} CutIsChain(packets: seq<PacketRef>, start: u64, targetMs: u64, k: nat, latest: u64)
    requires targetMs >= 1
    ensures CutFits(Cut(packets, start, targetMs, k, latest), start, k, latest)
  {
    if packets != [] {
      hide ToMillis, CutFits;
      var ms := packets[0].pts.AsMillis();
      if packets[0].keyframe && SatSub(ms, start) >= targetMs {
        CutIsChain(packets[1..], ms, targetMs, k + 1, latest);
        CutFitsInFront(SegmentWindow(k, start, ms), Cut(packets[1..], ms, targetMs, k + 1, latest), latest);
      } else {
        CutIsChain(packets[1..], start, targetMs, k, latest);
      }
    }
  }

  /** The last window ends at the latest end, or one millisecond behind it when it starts there. */
  lemma {:induction false} CutEnds(packets: seq<PacketRef>, start: u64, targetMs: u64, k: nat, latest: u64)
    requires start <= latest && forall p <- packets :: p.pts.AsMillis() <= latest
    ensures var ws := Cut(packets, start, targetMs, k, latest);
            ws != [] && (ws[|ws| - 1].endMs == latest || ws[|ws| - 1].endMs == SatAdd(latest, 1))
    decreases |packets|
  {
    if packets != [] {
      var ms := packets[0].pts.AsMillis();
      assert packets[0] in packets;
      CutEnds(packets[1..], ms, targetMs, k + 1, latest);
      CutEnds(packets[1..], start, targetMs, k, latest);
    }
  }

  lemma {:induction false} LatestEndIsLatest(packets: seq<PacketRef>, p: PacketRef)
    requires p in packets
    ensures PacketEndMs(p) <= LatestEnd(packets)
  {
    if p != packets[0] { LatestEndIsLatest(packets[1..], p); }
  }

  /** A plan tiles: contiguous windows numbered from zero, from the first packet's time to the latest packet end (one
      millisecond more when the last window would be empty), none short unless it is alone. */
  ghost predicate PlanTiles(packets: seq<PacketRef>, ws: seq<SegmentWindow>)
    requires packets != []
  {
    && ws != [] && Indexed(ws) && LongEnough(ws, MIN_SEGMENT_MS)
    && Chain(ws, packets[0].pts.AsMillis(), ws[|ws| - 1].endMs)
    && (ws[|ws| - 1].endMs == LatestEnd(packets) || ws[|ws| - 1].endMs == SatAdd(LatestEnd(packets), 1))
  }

  lemma {:induction false} WindowsTile(packets: seq<PacketRef>, targetMs: u64)
    requires packets != [] && targetMs >= 1
    ensures PlanTiles(packets, SegmentWindows(packets, targetMs))
  {
    var start, latest := packets[0].pts.AsMillis(), LatestEnd(packets);
    var raw := Cut(packets[1..], start, targetMs, 0, latest);
    forall p | p in packets ensures p.pts.AsMillis() <= latest { LatestEndIsLatest(packets, p); }
    CutIsChain(packets[1..], start, targetMs, 0, latest);
    CutEnds(packets[1..], start, targetMs, 0, latest);
    CollapseKeepsChain(raw, start, raw[|raw| - 1].endMs, MIN_SEGMENT_MS);
  }

  // ----- windows start on keyframes -----

  ghost predicate KeyframeAt(packets: seq<PacketRef>, ms: u64) {
    exists p :: p in packets && p.keyframe && p.pts.AsMillis() == ms
  }

  /** Every window but the first starts when a keyframe is presented. */
  ghost predicate StartOnKeyframes(packets: seq<PacketRef>, ws: seq<SegmentWindow>) {
    forall k :: 0 < k < |ws| ==> KeyframeAt(packets, ws[k].startMs)
  }

  /** The same, and so does the first when `too` holds. */
  ghost predicate Starts(packets: seq<PacketRef>, ws: seq<SegmentWindow>, too: bool) {
    StartOnKeyframes(packets, ws) && (too && ws != [] ==> KeyframeAt(packets, ws[0].startMs))
  }

  lemma {:induction false} CutStarts(packets: seq<PacketRef>, rest: seq<PacketRef>, start: u64, targetMs: u64, k: nat,
                                     latest: u64, too: bool)
    requires forall p :: p in rest ==> p in packets
    requires too ==> KeyframeAt(packets, start)
    ensures Starts(packets, Cut(rest, start, targetMs, k, latest), too)
    ensures var ws := Cut(rest, start, targetMs, k, latest); ws != [] && ws[0].startMs == start
    decreases |rest|
  {
    hide KeyframeAt, ToMillis;
    if rest != [] {
      var p, more := rest[0], rest[1..];
      assert p in packets && forall q :: q in more ==> q in packets;
      var ms := p.pts.AsMillis();
      if p.keyframe && SatSub(ms, start) >= targetMs {
        IsKeyframeAt(packets, p);
        CutStarts(packets, more, ms, targetMs, k + 1, latest, true);
        StartsInFront(packets, SegmentWindow(k, start, ms), Cut(more, ms, targetMs, k + 1, latest), too);
      } else {
        CutStarts(packets, more, start, targetMs, k, latest, too);
      }
    }
  }

  lemma {:induction false} IsKeyframeAt(packets: seq<PacketRef>, p: PacketRef)
    requires p in packets && p.keyframe
    ensures KeyframeAt(packets, p.pts.AsMillis())
  {
  }

  lemma {:induction false} StartsInFront(packets: seq<PacketRef>, w: SegmentWindow, rest: seq<SegmentWindow>, too: bool)
    requires Starts(packets, rest, true) && (too ==> KeyframeAt(packets, w.startMs))
    ensures Starts(packets, [w] + rest, too)
  {
    hide KeyframeAt;
    forall k | 0 < k < |rest| + 1 ensures KeyframeAt(packets, ([w] + rest)[k].startMs) {
      assert ([w] + rest)[k] == rest[k - 1];
    }
  }

  /** Absorbing only ever moves ends. */
  lemma {:induction false} AbsorbedStarts(packets: seq<PacketRef>, out: seq<SegmentWindow>, ws: seq<SegmentWindow>,
                                          min: u64)
    requires StartOnKeyframes(packets, out) && Starts(packets, ws, out != [])
    ensures StartOnKeyframes(packets, Absorbed(out, ws, min))
    decreases |ws|
  {
    hide KeyframeAt, Duration;
    if ws != [] {
      var w, rest := ws[0], ws[1..];
      assert forall k :: 0 <= k < |rest| ==> rest[k] == ws[k + 1];
      var next := if Duration(w) < min && out != [] then out[..|out| - 1] + [out[|out| - 1].(endMs := w.endMs)]
                  else out + [w];
      forall k | 0 < k < |next| ensures KeyframeAt(packets, next[k].startMs) {
        if k < |out| { assert next[k].startMs == out[k].startMs; } else { assert next[k] == w; }
      }
      AbsorbedStarts(packets, next, rest, min);
    }
  }

  lemma {:induction false} CollapsedStarts(packets: seq<PacketRef>, ws: seq<SegmentWindow>, min: u64)
    requires StartOnKeyframes(packets, ws)
    ensures StartOnKeyframes(packets, Collapsed(ws, min))
  {
    hide KeyframeAt, Duration, Absorbed;
    if |ws| > 1 && min > 0 {
      AbsorbedStarts(packets, [], ws, min);
      var out := Absorbed([], ws, min);
      var merged := FirstMerged(out, min);
      forall k | 0 < k < |merged| ensures KeyframeAt(packets, merged[k].startMs) {
        if merged != out { assert merged[k] == out[k + 1]; }
      }
      forall k | 0 < k < |merged| ensures KeyframeAt(packets, Renumbered(merged)[k].startMs) {
        RenumberedAt(merged, k);
      }
    }
  }

  /** Whatever the target: every planned window but the first starts when a keyframe behind the first packet is
      presented, so decoding can begin there. */
  lemma {:induction false} WindowsStartOnKeyframes(packets: seq<PacketRef>, targetMs: u64)
    requires packets != []
    ensures StartOnKeyframes(packets[1..], SegmentWindows(packets, targetMs))
  {
    var start, latest := packets[0].pts.AsMillis(), LatestEnd(packets);
    CutStarts(packets[1..], packets[1..], start, targetMs, 0, latest, false);
    CollapsedStarts(packets[1..], Cut(packets[1..], start, targetMs, 0, latest), MIN_SEGMENT_MS);
  }

  // ----- windows are closed when they are due -----

  /** Packets in the order they are presented in. */
  ghost predicate Ascending(packets: seq<PacketRef>) {
    forall i, j :: 0 <= i < j < |packets| ==> packets[i].pts.AsMillis() <= packets[j].pts.AsMillis()
  }

  /** No keyframe inside the window lies the target behind its start, unless less than `left` is left behind it. */
  ghost predicate ClosedInTime(w: SegmentWindow, packets: seq<PacketRef>, targetMs: u64, left: nat) {
    forall p :: p in packets && p.keyframe && w.startMs < p.pts.AsMillis() < w.endMs ==>
      p.pts.AsMillis() - w.startMs < targetMs || w.endMs - p.pts.AsMillis() < left
  }

  /** Every window is closed in time, and all but the last are at least the target long. */
  ghost predicate Due(ws: seq<SegmentWindow>, packets: seq<PacketRef>, targetMs: u64, left: nat) {
    && (forall k :: 0 <= k < |ws| ==> ClosedInTime(ws[k], packets, targetMs, left))
    && forall k :: 0 <= k < |ws| - 1 ==> ws[k].endMs - ws[k].startMs >= targetMs
  }

  /** The packets split where the open window stands: those before it, up to its start or not yet due, and the rest. */
  ghost predicate NotYetDue(before: seq<PacketRef>, start: u64, targetMs: u64) {
    forall p :: p in before && p.keyframe && p.pts.AsMillis() > start ==> p.pts.AsMillis() - start < targetMs
  }

  lemma {:induction false} AscendingSplit(before: seq<PacketRef>, p: PacketRef, rest: seq<PacketRef>)
    requires Ascending(before + [p] + rest)
    ensures forall q :: q in before ==> q.pts.AsMillis() <= p.pts.AsMillis()
    ensures forall q :: q in rest ==> p.pts.AsMillis() <= q.pts.AsMillis()
  {
    hide ToMillis;
    var all, n := before + [p] + rest, |before|;
    assert all[n] == p;
    forall q | q in before ensures q.pts.AsMillis() <= p.pts.AsMillis() {
      var i :| 0 <= i < n && before[i] == q;
      assert all[i] == q;
    }
    forall q | q in rest ensures p.pts.AsMillis() <= q.pts.AsMillis() {
      var i :| 0 <= i < |rest| && rest[i] == q;
      assert all[n + 1 + i] == q;
    }
  }

  lemma {:induction false} CutIsDue(before: seq<PacketRef>, rest: seq<PacketRef>, start: u64, targetMs: u64, k: nat,
                                    latest: u64)
    requires Ascending(before + rest) && NotYetDue(before, start, targetMs) && targetMs >= 1
    requires forall q :: q in rest ==> start <= q.pts.AsMillis()
    ensures Due(Cut(rest, start, targetMs, k, latest), before + rest, targetMs, 0)
    ensures Cut(rest, start, targetMs, k, latest) != []
    decreases |rest|
  {
    hide ToMillis, Due, NotYetDue, Ascending;
    if rest == [] {
      LastIsDue(before, start, targetMs, SegmentWindow(k, start, Max(latest, SatAdd(start, 1))));
      assert before + [] == before;
    } else {
      var p, more := rest[0], rest[1..];
      var ms := p.pts.AsMillis();
      assert before + rest == before + [p] + more && before + [p] + more == (before + [p]) + more;
      AscendingSplit(before, p, more);
      assert p in rest && forall q :: q in more ==> q in rest;
      if p.keyframe && SatSub(ms, start) >= targetMs {
        AllBehind(before, p, ms, targetMs);
        CutIsDue(before + [p], more, ms, targetMs, k + 1, latest);
        DueInFront(before, p, more, SegmentWindow(k, start, ms), Cut(more, ms, targetMs, k + 1, latest), targetMs);
      } else {
        OneMoreNotDue(before, p, start, targetMs);
        CutIsDue(before + [p], more, start, targetMs, k, latest);
      }
    }
  }

  lemma {:induction false} LastIsDue(before: seq<PacketRef>, start: u64, targetMs: u64, w: SegmentWindow)
    requires NotYetDue(before, start, targetMs) && w.startMs == start
    ensures Due([w], before, targetMs, 0)
  {
    hide ToMillis;
  }

  lemma {:induction false} AllBehind(before: seq<PacketRef>, p: PacketRef, ms: u64, targetMs: u64)
    requires p.pts.AsMillis() == ms && forall q :: q in before ==> q.pts.AsMillis() <= ms
    ensures NotYetDue(before + [p], ms, targetMs)
  {
    hide ToMillis;
  }

  lemma {:induction false} OneMoreNotDue(before: seq<PacketRef>, p: PacketRef, start: u64, targetMs: u64)
    requires NotYetDue(before, start, targetMs) && !(p.keyframe && SatSub(p.pts.AsMillis(), start) >= targetMs)
    ensures NotYetDue(before + [p], start, targetMs)
  {
    hide ToMillis;
  }

  lemma {:induction false} DueInFront(before: seq<PacketRef>, p: PacketRef, more: seq<PacketRef>, w: SegmentWindow,
                                      rest: seq<SegmentWindow>, targetMs: u64)
    requires NotYetDue(before, w.startMs, targetMs) && w.endMs == p.pts.AsMillis()
    requires forall q :: q in more ==> w.endMs <= q.pts.AsMillis()
    requires SatSub(w.endMs, w.startMs) >= targetMs >= 1 && rest != []
    requires Due(rest, (before + [p]) + more, targetMs, 0)
    ensures Due([w] + rest, before + [p] + more, targetMs, 0)
  {
    hide ToMillis;
    var all, ws := before + [p] + more, [w] + rest;
    forall q | q in all && q.keyframe && w.startMs < q.pts.AsMillis() < w.endMs
      ensures q.pts.AsMillis() - w.startMs < targetMs
    {
      assert q in before || q == p || q in more;
    }
    forall i | 0 <= i < |ws| ensures ClosedInTime(ws[i], all, targetMs, 0) { if i > 0 { assert ws[i] == rest[i - 1]; } }
    forall i | 0 <= i < |ws| - 1 ensures ws[i].endMs - ws[i].startMs >= targetMs {
      if i > 0 { assert ws[i] == rest[i - 1]; }
    }
  }

  /** With a target of a second or more only the last window of a cut can be short; then the one before takes it in. */
  lemma {:induction false} CollapsedIsDue(ws: seq<SegmentWindow>, packets: seq<PacketRef>, targetMs: u64, from: u64,
                                          to: u64)
    requires Chain(ws, from, to) && Due(ws, packets, targetMs, 0) && targetMs >= MIN_SEGMENT_MS
    ensures Due(Collapsed(ws, MIN_SEGMENT_MS), packets, targetMs, MIN_SEGMENT_MS)
  {
    hide ToMillis, Absorbed, Renumbered;
    if |ws| > 1 {
      var n := |ws| - 1;
      var front, last := ws[..n], ws[n];
      var long := if Duration(last) < MIN_SEGMENT_MS then front[..n - 1] + [front[n - 1].(endMs := last.endMs)] else ws;
      forall k | 0 <= k < n ensures Duration(ws[k]) >= MIN_SEGMENT_MS {
        assert ws[k].endMs - ws[k].startMs >= targetMs;
      }
      OnlyLastAbsorbed(ws, MIN_SEGMENT_MS);
      assert long[0].startMs == ws[0].startMs && long[0].endMs >= ws[0].endMs;
      assert FirstMerged(long, MIN_SEGMENT_MS) == long;
      LongIsDue(ws, long, packets, targetMs);
      RenumberedIsDue(long, packets, targetMs);
    } else {
      LongIsDue(ws, ws, packets, targetMs);
    }
  }

  lemma {:induction false} OnlyLastAbsorbed(ws: seq<SegmentWindow>, min: u64)
    requires |ws| > 1 && forall k :: 0 <= k < |ws| - 1 ==> Duration(ws[k]) >= min
    ensures var n := |ws| - 1;
            Absorbed([], ws, min) ==
            if Duration(ws[n]) < min then ws[..n - 1] + [ws[n - 1].(endMs := ws[n].endMs)] else ws
  {
    hide Duration, Absorbed;
    var n := |ws| - 1;
    var front := ws[..n];
    forall w | w in front ensures Duration(w) >= min { var k :| 0 <= k < n && front[k] == w; }
    AbsorbedInTurn([], front, [ws[n]], min);
    assert ws == front + [ws[n]] && [] + front == front;
    AbsorbLast(front, ws[n], min);
    assert front[..n - 1] == ws[..n - 1];
  }

  lemma {:induction false} AbsorbLast(out: seq<SegmentWindow>, w: SegmentWindow, min: u64)
    requires out != []
    ensures Absorbed(out, [w], min) ==
            if Duration(w) < min then out[..|out| - 1] + [out[|out| - 1].(endMs := w.endMs)] else out + [w]
  {
    hide Duration;
    assert [w][1..] == [];
  }

  lemma {:induction false} AbsorbedInTurn(out: seq<SegmentWindow>, long: seq<SegmentWindow>, more: seq<SegmentWindow>,
                                          min: u64)
    requires forall w :: w in long ==> Duration(w) >= min
    ensures Absorbed(out, long + more, min) == Absorbed(out + long, more, min)
    decreases |long|
  {
    hide Duration;
    if long == [] {
      assert [] + more == more && out + [] == out;
    } else {
      assert long[0] in long && (long + more)[0] == long[0] && (long + more)[1..] == long[1..] + more;
      AbsorbedInTurn(out + [long[0]], long[1..], more, min);
      assert (out + [long[0]]) + long[1..] == out + long;
    }
  }

  lemma {:induction false} LongIsDue(ws: seq<SegmentWindow>, long: seq<SegmentWindow>, packets: seq<PacketRef>,
                                     targetMs: u64)
    requires Due(ws, packets, targetMs, 0) && ws != []
    requires var n := |ws| - 1;
             || long == ws
             || (n > 0 && long == ws[..n - 1] + [ws[n - 1].(endMs := ws[n].endMs)] && ws[n - 1].endMs == ws[n].startMs
                 && Duration(ws[n]) < MIN_SEGMENT_MS && ws[n].startMs <= ws[n].endMs)
    ensures Due(long, packets, targetMs, MIN_SEGMENT_MS)
  {
    hide ToMillis;
    var n := |ws| - 1;
    forall k | 0 <= k < |long| ensures ClosedInTime(long[k], packets, targetMs, MIN_SEGMENT_MS) {
      if k < |long| - 1 || long == ws {
        assert long[k] == ws[k] && ClosedInTime(ws[k], packets, targetMs, 0);
      } else {
        assert ClosedInTime(ws[n - 1], packets, targetMs, 0);
      }
    }
  }

  lemma {:induction false} RenumberedIsDue(ws: seq<SegmentWindow>, packets: seq<PacketRef>, targetMs: u64)
    requires Due(ws, packets, targetMs, MIN_SEGMENT_MS)
    ensures Due(Renumbered(ws), packets, targetMs, MIN_SEGMENT_MS)
  {
    hide ToMillis;
    var r := Renumbered(ws);
    forall k | 0 <= k < |ws| ensures r[k] == ws[k].(index := k) { RenumberedAt(ws, k); }
    forall k | 0 <= k < |r| ensures ClosedInTime(r[k], packets, targetMs, MIN_SEGMENT_MS) {
      assert ClosedInTime(ws[k], packets, targetMs, MIN_SEGMENT_MS);
    }
  }

  /** Before collapsing, for packets in the order they are presented in: every window but the last is at least the
      target long, and no keyframe inside a window is the target or more behind its start. */
  lemma {:induction false} CutsAreDue(packets: seq<PacketRef>, targetMs: u64)
    requires packets != [] && Ascending(packets) && targetMs >= 1
    ensures Due(Cut(packets[1..], packets[0].pts.AsMillis(), targetMs, 0, LatestEnd(packets)), packets, targetMs, 0)
  {
    hide ToMillis, Due;
    var first, rest := packets[0], packets[1..];
    assert packets == [first] + rest && packets == [] + [first] + rest;
    AscendingSplit([], first, rest);
    AllBehind([], first, first.pts.AsMillis(), targetMs);
    assert [] + [first] == [first];
    CutIsDue([first], rest, first.pts.AsMillis(), targetMs, 0, LatestEnd(packets));
  }

  /** And planned, with a target of a second or more: unless less than a second is left behind it. */
  lemma {:induction false} WindowsAreDue(packets: seq<PacketRef>, targetMs: u64)
    requires packets != [] && Ascending(packets) && targetMs >= 1000
    ensures Due(SegmentWindows(packets, targetMs), packets, targetMs, 1000)
  {
    hide ToMillis, Due;
    var start, latest := packets[0].pts.AsMillis(), LatestEnd(packets);
    var raw := Cut(packets[1..], start, targetMs, 0, latest);
    CutsAreDue(packets, targetMs);
    CutIsChain(packets[1..], start, targetMs, 0, latest);
    CollapsedIsDue(raw, packets, targetMs, start, raw[|raw| - 1].endMs);
  }

  /** Every packet's presentation ends by the end of the last window, and the latest one there or a millisecond
      before. */
  lemma {:induction false} WindowsReachTheEnd(packets: seq<PacketRef>, targetMs: u64)
    requires packets != [] && targetMs >= 1
    ensures var ws := SegmentWindows(packets, targetMs);
            && ws != []
            && var end := ws[|ws| - 1].endMs;
               && (forall p :: p in packets ==> Min(p.pts.AsMillis() + p.duration.AsMillis(), U64_MAX) <= end)
               && exists p :: p in packets && Min(p.pts.AsMillis() + p.duration.AsMillis(), U64_MAX) + 1 >= end
  {
    hide ToMillis, Cut, Collapsed;
    WindowsTile(packets, targetMs);
    var latest := SomeLatest(packets);
    forall p | p in packets ensures Min(p.pts.AsMillis() + p.duration.AsMillis(), U64_MAX) <= LatestEnd(packets) {
      LatestEndIsLatest(packets, p);
    }
  }

  lemma {:induction false} SomeLatest(packets: seq<PacketRef>) returns (p: PacketRef)
    requires packets != []
    ensures p in packets && PacketEndMs(p) == LatestEnd(packets)
    decreases |packets|
  {
    hide ToMillis;
    p := packets[0];
    if |packets| > 1 {
      var q := SomeLatest(packets[1..]);
      if PacketEndMs(p) < PacketEndMs(q) { p := q; }
    }
  }

  /** The targets the engine passes are raised to half a second, so its plans always tile, and cut on keyframes. */
  lemma {:induction false} EngineWindowsTile(packets: seq<PacketRef>, requestedMs: u64)
    requires packets != []
    ensures PlanTiles(packets, SegmentWindows(packets, Max(requestedMs, 500)))
    ensures StartOnKeyframes(packets, SegmentWindows(packets, Max(requestedMs, 500)))
  {
    hide SegmentWindows, PlanTiles, KeyframeAt;
    WindowsStartOnKeyframes(packets, Max(requestedMs, 500));
    KeyframesOfTail(packets, SegmentWindows(packets, Max(requestedMs, 500)));
    WindowsTile(packets, Max(requestedMs, 500));
  }

  lemma {:induction false} KeyframesOfTail(packets: seq<PacketRef>, ws: seq<SegmentWindow>)
    requires packets != [] && StartOnKeyframes(packets[1..], ws)
    ensures StartOnKeyframes(packets, ws)
  {
    forall k | 0 < k < |ws| ensures KeyframeAt(packets, ws[k].startMs) {
      assert KeyframeAt(packets[1..], ws[k].startMs);
      var p :| p in packets[1..] && p.keyframe && p.pts.AsMillis() == ws[k].startMs;
      assert p in packets;
    }
  }

  /** Of the planning step alone: plans tile for every packet list exactly when the target is positive. With target
      zero, which its caller never passes, a keyframe presented before the window's start would close the window
      backwards. */
  lemma {:induction false} WindowsTileIff(targetMs: u64)
    ensures targetMs >= 1 <==> forall packets: seq<PacketRef> :: packets != [] ==>
            PlanTiles(packets, SegmentWindows(packets, targetMs))
  {
    forall packets: seq<PacketRef> | targetMs >= 1 && packets != []
      ensures PlanTiles(packets, SegmentWindows(packets, targetMs))
    {
      WindowsTile(packets, targetMs);
    }
    if targetMs == 0 {
      var packets := ZeroTargetExample();
      assert packets != [] && !PlanTiles(packets, SegmentWindows(packets, 0));
    }
  }

  function At(ms: u64, duration: u64): PacketRef {
    PacketRef(0, 1, MediaTime(ms, 1000), MediaTime(ms, 1000), MediaTime(duration, 1000), true)
  }

  lemma {:induction false} ZeroTargetExample() returns (packets: seq<PacketRef>)
    ensures packets != [] && !PlanTiles(packets, SegmentWindows(packets, 0))
  {
    packets := [At(5000, 0), At(3000, 0), At(4500, 4500)];
    var tail := packets[1..];
    assert tail[1..] == [At(4500, 4500)] && tail[1..][1..] == [];
    assert At(5000, 0).pts.AsMillis() == 5000 && At(3000, 0).pts.AsMillis() == 3000 &&
           At(4500, 4500).pts.AsMillis() == 4500;
    assert LatestEnd(tail[1..]) == 9000 && LatestEnd(tail) == 9000 && LatestEnd(packets) == 9000;
    var a, b, c := SegmentWindow(0, 5000, 3000), SegmentWindow(1, 3000, 4500), SegmentWindow(2, 4500, 9000);
    assert Cut(tail[1..][1..], 4500, 0, 2, 9000) == [c];
    assert Cut(tail[1..], 3000, 0, 1, 9000) == [b, c];
    var raw := Cut(tail, 5000, 0, 0, 9000);
    assert raw == [a, b, c];
    assert raw[1..] == [b, c] && raw[1..][1..] == [c] && raw[1..][1..][1..] == [];
    assert Absorbed([a, b, c], [], 1000) == [a, b, c];
    assert [a, b] + [c] == [a, b, c] && [a] + [b] == [a, b] && [] + [a] == [a];
    assert Absorbed([a, b], [c], 1000) == Absorbed([a, b, c], [c][1..], 1000);
    assert Absorbed([a], [b, c], 1000) == Absorbed([a, b], [b, c][1..], 1000);
    assert Absorbed([], raw, 1000) == Absorbed([a], raw[1..], 1000) == [a, b, c];
    var merged := FirstMerged([a, b, c], 1000);
    assert merged[0].startMs == 5000 && merged[0].endMs == 4500;
    RenumberedAt(merged, 0);
  }

  /** Every packet presented from the first one on, for a positive time, is in exactly one window. */
  lemma {:induction false} EveryPacketInOneWindow(packets: seq<PacketRef>, targetMs: u64, p: PacketRef)
    requires packets != [] && targetMs >= 1 && p in packets
    requires packets[0].pts.AsMillis() <= p.pts.AsMillis() < PacketEndMs(p)
    ensures HeldOnce(SegmentWindows(packets, targetMs), p.pts.AsMillis())
  {
    var ws := SegmentWindows(packets, targetMs);
    WindowsTile(packets, targetMs);
    LatestEndIsLatest(packets, p);
    ChainHoldsOnce(ws, packets[0].pts.AsMillis(), ws[|ws| - 1].endMs, p.pts.AsMillis());
  }

  // ----- bytes per window -----

  ghost predicate SortedDisjoint(ws: seq<SegmentWindow>) {
    && (forall i :: 0 <= i < |ws| ==> ws[i].startMs <= ws[i].endMs)
    && (forall i, j :: 0 <= i < j < |ws| ==> ws[i].endMs <= ws[j].startMs)
  }

  lemma {:induction false} ChainIsSortedDisjoint(ws: seq<SegmentWindow>, from: u64, to: u64)
    requires Chain(ws, from, to)
    ensures SortedDisjoint(ws)
  {
    forall i, j | 0 <= i < j < |ws| ensures ws[i].endMs <= ws[j].startMs { ChainStarts(ws, from, to, i, j); }
  }

  /** The first window that ends after `t`: binary search, as the library's partition point does it. */
  method PartitionPoint(ws: seq<SegmentWindow>, t: u64) returns (k: nat)
    requires SortedDisjoint(ws)
    ensures k <= |ws|
    ensures forall i :: 0 <= i < k ==> ws[i].endMs <= t
    ensures forall i :: k <= i < |ws| ==> t < ws[i].endMs
  {
    var lo: nat, hi: nat := 0, |ws|;
    while lo < hi
      invariant lo <= hi <= |ws|
      invariant forall i :: 0 <= i < lo ==> ws[i].endMs <= t
      invariant forall i :: hi <= i < |ws| ==> t < ws[i].endMs
    {
      var mid := (lo + hi) / 2;
      if ws[mid].endMs <= t { lo := mid + 1; } else { hi := mid; }
    }
    k := lo;
  }

  /** The cursor-based accounting equals the plain sum of each window, for packets in any order. */
  method TrackBytesByWindow(packets: seq<PacketRef>, ws: seq<SegmentWindow>) returns (r: seq<u64>)
    requires SortedDisjoint(ws)
    ensures |r| == |ws|
    ensures forall i :: 0 <= i < |ws| ==> r[i] == Min(U64_MAX, WindowBytes(packets, ws[i]))
  {
    r := seq(|ws|, _ => 0);
    if ws == [] { return; }
    var at: nat := 0;
    for n := 0 to |packets|
      invariant |r| == |ws|
      invariant forall i :: 0 <= i < |ws| ==> r[i] == Min(U64_MAX, WindowBytes(packets[..n], ws[i]))
    {
      var p := packets[n];
      var pts := p.pts.AsMillis();
      assert packets[..n + 1] == packets[..n] + [p];
      forall i | 0 <= i < |ws|
        ensures WindowBytes(packets[..n + 1], ws[i]) ==
                WindowBytes(packets[..n], ws[i]) + if InWindow(p, ws[i]) then p.size else 0
      {
        WindowBytesSnoc(packets[..n], p, ws[i]);
      }
      if at >= |ws| || pts < ws[at].startMs || pts >= ws[at].endMs {
        at := PartitionPoint(ws, pts);
      }
      if at < |ws| && pts >= ws[at].startMs {
        r := r[at := SatAdd(r[at], p.size)];
      }
    }
    assert packets[..|packets|] == packets;
  }

  function AllWindowBytes(packets: seq<PacketRef>, ws: seq<SegmentWindow>): nat {
    if ws == [] then 0 else WindowBytes(packets, ws[0]) + AllWindowBytes(packets, ws[1..])
  }

  function CoveredBytes(packets: seq<PacketRef>, ws: seq<SegmentWindow>): nat {
    if packets == [] then 0
    else (if exists w <- ws :: InWindow(packets[0], w) then packets[0].size else 0) + CoveredBytes(packets[1..], ws)
  }

  lemma {:induction false} OnePacketAccounted(p: PacketRef, rest: seq<PacketRef>, ws: seq<SegmentWindow>)
    requires SortedDisjoint(ws)
    ensures AllWindowBytes([p] + rest, ws) ==
            (if exists w <- ws :: InWindow(p, w) then p.size else 0) + AllWindowBytes(rest, ws)
    decreases |ws|
  {
    if ws != [] {
      OnePacketAccounted(p, rest, ws[1..]);
      assert ([p] + rest)[1..] == rest;
      assert ws == [ws[0]] + ws[1..];
      if InWindow(p, ws[0]) {
        forall w | w in ws[1..] ensures !InWindow(p, w) {
          var j :| 1 <= j < |ws| && ws[j] == w;
        }
      }
    }
  }

  /** Disjoint windows conserve bytes: together they hold exactly the packets presented in some window. */
  lemma {:induction false} BytesAreConserved(packets: seq<PacketRef>, ws: seq<SegmentWindow>)
    requires SortedDisjoint(ws)
    ensures AllWindowBytes(packets, ws) == CoveredBytes(packets, ws)
  {
    if packets == [] {
      NothingToAccount(ws);
    } else {
      BytesAreConserved(packets[1..], ws);
      OnePacketAccounted(packets[0], packets[1..], ws);
      assert packets == [packets[0]] + packets[1..];
    }
  }

  lemma {:induction false} NothingToAccount(ws: seq<SegmentWindow>)
    ensures AllWindowBytes([], ws) == 0
  {
    if ws != [] { NothingToAccount(ws[1..]); }
  }

  /** The bytes of the packets presented from `from` on and before `to`. */
  function SpanBytes(packets: seq<PacketRef>, from: u64, to: u64): nat {
    if packets == [] then 0
    else (if from <= packets[0].pts.AsMillis() < to then packets[0].size else 0) + SpanBytes(packets[1..], from, to)
  }

  lemma {:induction false} ChainCovers(ws: seq<SegmentWindow>, from: u64, to: u64, ms: u64)
    requires Chain(ws, from, to)
    ensures (exists w <- ws :: Holds(w, ms)) <==> from <= ms < to
  {
    ChainIsSortedDisjoint(ws, from, to);
    if from <= ms < to {
      ChainHoldsOnce(ws, from, to, ms);
      var i :| 0 <= i < |ws| && Holds(ws[i], ms);
      assert ws[i] in ws;
    }
    if w :| w in ws && Holds(w, ms) {
      var i :| 0 <= i < |ws| && ws[i] == w;
      assert i == 0 || ws[0].endMs <= ws[i].startMs;
      assert i == |ws| - 1 || ws[i].endMs <= ws[|ws| - 1].startMs;
    }
  }

  lemma {:induction false} CoveredIsSpan(packets: seq<PacketRef>, ws: seq<SegmentWindow>, from: u64, to: u64)
    requires Chain(ws, from, to)
    ensures CoveredBytes(packets, ws) == SpanBytes(packets, from, to)
  {
    hide Chain;
    if packets != [] {
      CoveredIsSpan(packets[1..], ws, from, to);
      ChainCovers(ws, from, to, packets[0].pts.AsMillis());
      assert (exists w <- ws :: InWindow(packets[0], w)) <==> (exists w <- ws :: Holds(w, packets[0].pts.AsMillis()));
    }
  }

  /** The planned windows together hold exactly the bytes of the packets presented from the first one's time to the last
      window's end, each packet once. */
  lemma {:induction false} PlannedBytesAreConserved(packets: seq<PacketRef>, targetMs: u64)
    requires packets != [] && targetMs >= 1
    ensures var ws := SegmentWindows(packets, targetMs);
            && ws != [] && SortedDisjoint(ws)
            && AllWindowBytes(packets, ws) == SpanBytes(packets, packets[0].pts.AsMillis(), ws[|ws| - 1].endMs)
  {
    var ws := SegmentWindows(packets, targetMs);
    WindowsTile(packets, targetMs);
    var from, to := packets[0].pts.AsMillis(), ws[|ws| - 1].endMs;
    ChainIsSortedDisjoint(ws, from, to);
    BytesAreConserved(packets, ws);
    CoveredIsSpan(packets, ws, from, to);
  }

  // ----- windows from a container's chunk plan -----

  /** Each chunk's window as first drawn: at least a millisecond long. */
  function Drawn(c: NativeChunk): SegmentWindow {
    SegmentWindow(c.index, c.startMs, Max(SatAdd(c.startMs, c.durationMs), SatAdd(c.startMs, 1)))
  }

  /** Then every window but the last is stretched to the next start. */
  function Stretched(chunks: seq<NativeChunk>): seq<SegmentWindow> {
    if chunks == [] then []
    else if |chunks| == 1 then [Drawn(chunks[0])]
    else [Drawn(chunks[0]).(endMs := Max(chunks[1].startMs, SatAdd(chunks[0].startMs, 1)))] + Stretched(chunks[1..])
  }

  method ChunkPlanWindows(chunks: seq<NativeChunk>) returns (r: seq<SegmentWindow>)
    ensures r == Collapsed(Stretched(chunks), MIN_SEGMENT_MS)
  {
    var windows := [];
    for i := 0 to |chunks|
      invariant |windows| == i && forall k :: 0 <= k < i ==> windows[k] == Drawn(chunks[k])
    {
      windows := windows + [Drawn(chunks[i])];
    }
    StretchedLength(chunks);
    for i := 0 to |windows| - (if |windows| == 0 then 0 else 1)
      invariant |windows| == |chunks|
      invariant forall k :: 0 <= k < |chunks| ==> windows[k] == if k < i then Stretched(chunks)[k] else Drawn(chunks[k])
    {
      StretchedAt(chunks, i);
      windows := windows[i := windows[i].(endMs := Max(windows[i + 1].startMs, SatAdd(windows[i].startMs, 1)))];
    }
    if chunks != [] { StretchedAt(chunks, |chunks| - 1); }
    assert windows == Stretched(chunks);
    r := CollapseShortWindows(windows, MIN_SEGMENT_MS);
  }

  lemma {:induction false} StretchedLength(chunks: seq<NativeChunk>)
    ensures |Stretched(chunks)| == |chunks|
  {
    if |chunks| > 1 { StretchedLength(chunks[1..]); }
  }

  lemma {:induction false} StretchedAt(chunks: seq<NativeChunk>, k: nat)
    requires k < |chunks|
    ensures |Stretched(chunks)| == |chunks|
    ensures Stretched(chunks)[k] ==
            if k + 1 < |chunks|
            then Drawn(chunks[k]).(endMs := Max(chunks[k + 1].startMs, SatAdd(chunks[k].startMs, 1)))
            else Drawn(chunks[k])
  {
    StretchedLength(chunks);
    if |chunks| > 1 && k > 0 { StretchedAt(chunks[1..], k - 1); }
  }

  /** Chunks numbered from zero, each starting after the one before it. */
  ghost predicate Later(chunks: seq<NativeChunk>) {
    && (forall k :: 0 <= k < |chunks| ==> chunks[k].index == k)
    && (forall k :: 0 < k < |chunks| ==> chunks[k - 1].startMs < chunks[k].startMs)
  }

  /** Each window but the last ends where the next one starts. */
  lemma {:induction false} StretchedJoins(chunks: seq<NativeChunk>, k: nat)
    requires 0 < k < |chunks| && chunks[k - 1].startMs < chunks[k].startMs
    ensures |Stretched(chunks)| == |chunks|
    ensures Stretched(chunks)[k - 1].endMs == Stretched(chunks)[k].startMs == chunks[k].startMs
    ensures Stretched(chunks)[k - 1].startMs == chunks[k - 1].startMs
  {
    hide Stretched;
    StretchedAt(chunks, k - 1);
    StretchedAt(chunks, k);
  }

  lemma {:induction false} StretchedIsChain(chunks: seq<NativeChunk>)
    requires chunks != [] && forall k :: 0 < k < |chunks| ==> chunks[k - 1].startMs < chunks[k].startMs
    ensures |Stretched(chunks)| == |chunks|
    ensures Chain(Stretched(chunks), chunks[0].startMs, Drawn(chunks[|chunks| - 1]).endMs)
    ensures forall k :: 0 <= k < |chunks| ==> Stretched(chunks)[k].index == chunks[k].index
  {
    hide Stretched;
    var ws, last := Stretched(chunks), |chunks| - 1;
    StretchedAt(chunks, last);
    StretchedAt(chunks, 0);
    forall k | 0 < k < |chunks| ensures ws[k - 1].endMs == ws[k].startMs { StretchedJoins(chunks, k); }
    forall k | 0 <= k < |chunks| ensures ws[k].index == chunks[k].index && ws[k].startMs <= ws[k].endMs {
      StretchedAt(chunks, k);
    }
  }

  /** Chunks that start later and later become a tiling plan of windows. */
  lemma {:induction false} ChunkWindowsTile(chunks: seq<NativeChunk>)
    requires chunks != []
    requires Later(chunks)
    ensures var ws := Collapsed(Stretched(chunks), MIN_SEGMENT_MS);
            && ws != [] && Indexed(ws) && LongEnough(ws, MIN_SEGMENT_MS)
            && Chain(ws, chunks[0].startMs, ChunkEnd(chunks[|chunks| - 1]))
  {
    hide Stretched, Collapsed, LongEnough, Drawn, ChunkEnd;
    StretchedIsChain(chunks);
    DrawnEnds(chunks[|chunks| - 1]);
    CollapseKeepsChain(Stretched(chunks), chunks[0].startMs, Drawn(chunks[|chunks| - 1]).endMs, MIN_SEGMENT_MS);
  }

  lemma {:induction false} DrawnEnds(c: NativeChunk)
    ensures Drawn(c).endMs == ChunkEnd(c)
  {
  }

  /** Where a chunk ends, at least a millisecond behind its start, as far as 64 bits go. */
  function ChunkEnd(c: NativeChunk): u64 { Min(0xffff_ffff_ffff_ffff, c.startMs + Max(c.durationMs, 1)) }

  /** Where a chunk of a second or more starts, a second or more behind the first start, a window starts. */
  lemma {:induction false} LongChunksStartWindows(chunks: seq<NativeChunk>, k: nat)
    requires Later(chunks) && k < |chunks| && chunks[k].startMs >= chunks[0].startMs + 1000
    requires (if k + 1 < |chunks| then chunks[k + 1].startMs else ChunkEnd(chunks[k])) >= chunks[k].startMs + 1000
    ensures var ws := Collapsed(Stretched(chunks), MIN_SEGMENT_MS);
            exists j :: 0 <= j < |ws| && ws[j].startMs == chunks[k].startMs
  {
    hide Stretched, Collapsed;
    var ws := Stretched(chunks);
    StretchedIsChain(chunks);
    StretchedAt(chunks, k);
    StretchedAt(chunks, 0);
    CollapseKeepsLongStarts(ws, chunks[0].startMs, Drawn(chunks[|chunks| - 1]).endMs, MIN_SEGMENT_MS, k);
  }
}
