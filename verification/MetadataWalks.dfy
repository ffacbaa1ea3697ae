/** What walks over metadata cost: a dense walk forward reads ever longer windows, a jump reads a short one. */
module MetadataWalks {
  import opened Machine
  import opened MetadataCache

  datatype Use = Use(offset: nat, len: nat)

  /** The window after some prefix reads that all succeed, from an empty one. */
  function Walked(source: seq<byte>, limit: nat, uses: seq<Use>): Window {
    if uses == [] then Window(0, [], 0)
    else
      var u := uses[|uses| - 1];
      PrefixStep(Walked(source, limit, uses[..|uses| - 1]), source, limit, u.offset, u.len, true).0
  }

  /** How many of them went to the source. */
  function Misses(source: seq<byte>, limit: nat, uses: seq<Use>): nat {
    if uses == [] then 0
    else
      var front, u := uses[..|uses| - 1], uses[|uses| - 1];
      Misses(source, limit, front) +
      if PrefixReads(Walked(source, limit, front), source, limit, u.offset, u.len) then 1 else 0
  }

  /** Headers of up to 64 bytes inside the source, each at or behind the one before it. */
  ghost predicate Forward(source: seq<byte>, uses: seq<Use>) {
    && (forall k :: 0 <= k < |uses| ==> 0 < uses[k].len <= 64 && uses[k].offset + uses[k].len <= |source|)
    && forall k :: 0 < k < |uses| ==> uses[k - 1].offset <= uses[k].offset
  }

  /** And at most 128 KiB behind it. */
  ghost predicate Dense(uses: seq<Use>) {
    forall k :: 0 < k < |uses| ==> uses[k].offset <= uses[k - 1].offset + 0x2_0000
  }

  /** The length of the window after `m` reads: 8 KiB, then twice the last, up to 1 MiB. */
  function Length(m: nat): nat { if m <= 1 then 0x2000 else Min(0x10_0000, 2 * Length(m - 1)) }

  /** How far the `m`-th read is behind the first at least: past all windows before it, but for part of a header. */
  function Progress(m: nat): int { if m <= 1 then 0 else Progress(m - 1) + Length(m - 1) - 63 }

  lemma {:induction false} LengthRange(m: nat)
    ensures 0x2000 <= Length(m) <= 0x10_0000
    decreases m
  {
    if m > 1 { LengthRange(m - 1); }
  }

  /** The window `w` after `m` reads of a walk from `first` that last used `u`. */
  ghost predicate OnWalk(w: Window, source: seq<byte>, first: nat, u: Use, m: nat) {
    && m >= 1 && w.bytes != [] && w.capacity <= 0x10_0000
    && w.offset <= u.offset && u.offset + u.len <= w.offset + |w.bytes| <= |source|
    && (|w.bytes| == Length(m) || w.offset + |w.bytes| == |source|)
    && w.offset >= first + Progress(m)
  }

  lemma {:induction false} FirstUse(source: seq<byte>, limit: nat, u: Use)
    requires limit >= 0x10_0000 && 0 < u.len <= 64 && u.offset + u.len <= |source|
    ensures var w := Window(0, [], 0);
            && PrefixReads(w, source, limit, u.offset, u.len)
            && OnWalk(PrefixStep(w, source, limit, u.offset, u.len, true).0, source, u.offset, u, 1)
  {
  }

  lemma {:induction false} NextUse(w: Window, source: seq<byte>, limit: nat, first: nat, last: Use, u: Use, m: nat)
    requires limit >= 0x10_0000 && 0 < u.len <= 64 && u.offset + u.len <= |source|
    requires OnWalk(w, source, first, last, m) && last.offset <= u.offset <= last.offset + 0x2_0000
    ensures var v := PrefixStep(w, source, limit, u.offset, u.len, true).0;
            OnWalk(v, source, first, u, if PrefixReads(w, source, limit, u.offset, u.len) then m + 1 else m)
  {
    LengthRange(m);
    assert Shrunk(w, 0x10_0000) == w;
    if PrefixReads(w, source, limit, u.offset, u.len) {
      assert |w.bytes| == Length(m) && u.offset >= w.offset + Length(m) - 63;
      assert FillLength(w, source, u.offset, limit) == Min(Length(m + 1), |source| - u.offset);
      assert Progress(m + 1) == Progress(m) + Length(m) - 63;
    }
  }

  lemma {:induction false} WalkHolds(source: seq<byte>, limit: nat, uses: seq<Use>)
    requires limit >= 0x10_0000 && uses != [] && Forward(source, uses) && Dense(uses)
    ensures OnWalk(Walked(source, limit, uses), source, uses[0].offset, uses[|uses| - 1], Misses(source, limit, uses))
  {
    hide OnWalk, PrefixStep, PrefixReads;
    var front, u := uses[..|uses| - 1], uses[|uses| - 1];
    if front == [] {
      FirstUse(source, limit, u);
    } else {
      WalkHolds(source, limit, front);
      assert front[|front| - 1] == uses[|uses| - 2];
      NextUse(Walked(source, limit, front), source, limit, uses[0].offset, front[|front| - 1], u,
              Misses(source, limit, front));
    }
  }

  lemma {:induction false} LongAfterEight(m: nat)
    requires m >= 8
    ensures Length(m) == 0x10_0000 && Progress(m) >= (m - 8) * 0xf_ffc1
    decreases m
  {
    if m == 8 {
      assert Length(2) == 0x4000 && Length(4) == 0x1_0000 && Length(6) == 0x4_0000;
    } else {
      LongAfterEight(m - 1);
    }
  }

  /** A dense walk forward of any number of headers reads the source at most eight times, and once more for every
      mebibyte, less part of a header, that it covers. */
  lemma {:induction false} DenseWalksAreCheap(source: seq<byte>, limit: nat, uses: seq<Use>)
    requires limit >= 0x10_0000 && uses != [] && Forward(source, uses) && Dense(uses)
    ensures var m, covered := Misses(source, limit, uses), uses[|uses| - 1].offset - uses[0].offset;
            m <= 8 || (m - 8) * (1024 * 1024 - 63) <= covered
  {
    hide Misses, Walked, Length, Progress;
    var m := Misses(source, limit, uses);
    WalkHolds(source, limit, uses);
    if m > 8 { LongAfterEight(m); }
  }

  /** A header before the window, or more than 128 KiB behind it, brings in 8 KiB at most; so does the first. */
  lemma {:induction false} JumpsReadLittle(w: Window, source: seq<byte>, limit: nat, u: Use)
    requires PrefixReads(w, source, limit, u.offset, u.len)
    requires w.bytes == [] || u.offset < w.offset || u.offset > w.offset + |w.bytes| + 128 * 1024
    ensures var v := PrefixStep(w, source, limit, u.offset, u.len, true).0;
            v.bytes == [] || v.bytes == w.bytes || (v.offset == u.offset && |v.bytes| <= 8 * 1024)
  {
  }

  /** What a prefetch that fits the limit has brought in is read without the source, until something else is. */
  lemma {:induction false} PrefetchedIsServed(w: Window, source: seq<byte>, limit: nat, policy: nat, all: Use,
                                              part: Use)
    requires 0 < all.len <= limit && all.offset + all.len <= |source|
    requires all.offset <= part.offset && part.offset + part.len <= all.offset + all.len
    ensures var v := PrefetchStep(w, source, limit, all.offset, all.len, true).0;
            && !PrefetchReads(v, source, limit, part.offset, part.len)
            && !WindowReads(v, source, policy, part.offset, part.len)
  {
  }
}
