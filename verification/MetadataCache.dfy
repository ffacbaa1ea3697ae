/** The bounded lookahead window over container metadata. */
module MetadataCache {
  import opened Machine
  import opened PacketReads

  const METADATA_LOOKAHEAD_BYTES := 1024 * 1024
  const METADATA_INITIAL_BYTES := 8 * 1024
  const DENSE_SLACK_BYTES := 128 * 1024
  const MAX_METADATA_PREFIX_BYTES := 64

  /** `bytes` were read at `offset`; `capacity` is the allocation that holds them. */
  datatype Window = Window(offset: nat, bytes: seq<byte>, capacity: nat)

  type Fetched = Result<seq<byte>, ReadError>

  ghost predicate Agrees(w: Window, source: seq<byte>) {
    && |w.bytes| <= w.capacity
    && (w.bytes != [] ==>
          w.offset + |w.bytes| <= |source| && w.bytes == source[w.offset..w.offset + |w.bytes|])
  }

  /** The uncached read every cached one must equal. */
  function Plain(source: seq<byte>, offset: nat, len: nat): seq<byte>
    requires offset + len <= |source|
  {
    source[offset..offset + len]
  }

  predicate Serves(w: Window, offset: nat, len: nat) {
    w.offset <= offset && offset - w.offset + len <= |w.bytes|
  }

  function Served(w: Window, offset: nat, len: nat): seq<byte>
    requires Serves(w, offset, len)
  {
    w.bytes[offset - w.offset..offset - w.offset + len]
  }

  /** A window over its limit gives its allocation back. */
  function Shrunk(w: Window, limit: nat): Window {
    if w.capacity > limit then Window(w.offset, [], 0) else w
  }

  /** Doubles on a forward, dense walk; starts small otherwise. */
  function FillLength(w: Window, source: seq<byte>, offset: nat, limit: nat): nat
    requires offset <= |source|
  {
    var dense := w.bytes != [] && w.offset <= offset && offset - w.offset <= |w.bytes| + DENSE_SLACK_BYTES;
    var lookahead := if dense then 2 * |w.bytes| else METADATA_INITIAL_BYTES;
    Min(limit, Min(METADATA_LOOKAHEAD_BYTES, Min(lookahead, |source| - offset)))
  }

  /** Refilling reuses the allocation; a failed fill leaves the window empty. */
  function Refilled(w: Window, source: seq<byte>, offset: nat, len: nat, ok: bool): Window
    requires offset + len <= |source|
  {
    var capacity := Max(w.capacity, len);
    if ok then Window(offset, Plain(source, offset, len), capacity) else Window(w.offset, [], capacity)
  }

  /** One use of the cache; `ok` says whether the positional read it may need succeeds. */
  datatype Op =
    | ReadPrefix(offset: nat, len: nat, ok: bool)
    | Prefetch(offset: nat, len: nat, ok: bool)
    | ReadWindow(offset: nat, len: nat, ok: bool)

  function PrefixStep(w: Window, source: seq<byte>, limit: nat, offset: nat, len: nat, ok: bool): (Window, Fetched) {
    if len > MAX_METADATA_PREFIX_BYTES || offset + len > |source| then (w, Err(UnexpectedEof))
    else if len == 0 then (w, Ok([]))
    else
      var v := Shrunk(w, Min(limit, METADATA_LOOKAHEAD_BYTES));
      if Serves(v, offset, len) then (v, Ok(Served(v, offset, len)))
      else
        var fill := FillLength(v, source, offset, limit);
        if fill < len then (v, if ok then Ok(Plain(source, offset, len)) else Err(IoFailure))
        else
          var r := Refilled(v, source, offset, fill, ok);
          (r, if ok then Ok(r.bytes[..len]) else Err(IoFailure))
  }

  function PrefetchStep(w: Window, source: seq<byte>, limit: nat, offset: nat, len: nat, ok: bool): (Window, Fetched) {
    if offset + len > |source| then (w, Err(UnexpectedEof))
    else if len == 0 || len > limit || Serves(w, offset, len) then (w, Ok([]))
    else (Refilled(Shrunk(w, limit), source, offset, len, ok), if ok then Ok([]) else Err(IoFailure))
  }

  function WindowStep(w: Window, source: seq<byte>, policy: nat, offset: nat, len: nat, ok: bool): (Window, Fetched) {
    if len > policy then (w, Err(Exceeded))
    else if offset + len > |source| then (w, Err(UnexpectedEof))
    else if Serves(w, offset, len) then (w, Ok(Served(w, offset, len)))
    else if len > MAX_BUFFER_BYTES then (w, Err(InvalidInput))
    else (w, if ok then Ok(Plain(source, offset, len)) else Err(IoFailure))
  }

  /** Whether a prefix read has to go to the source. */
  predicate PrefixReads(w: Window, source: seq<byte>, limit: nat, offset: nat, len: nat) {
    && 0 < len <= MAX_METADATA_PREFIX_BYTES && offset + len <= |source|
    && !Serves(Shrunk(w, Min(limit, METADATA_LOOKAHEAD_BYTES)), offset, len)
  }

  predicate PrefetchReads(w: Window, source: seq<byte>, limit: nat, offset: nat, len: nat) {
    0 < len <= limit && offset + len <= |source| && !Serves(w, offset, len)
  }

  predicate WindowReads(w: Window, source: seq<byte>, policy: nat, offset: nat, len: nat) {
    len <= Min(policy, MAX_BUFFER_BYTES) && offset + len <= |source| && !Serves(w, offset, len)
  }

  function Step(w: Window, source: seq<byte>, limit: nat, policy: nat, op: Op): (Window, Fetched) {
    match op
    case ReadPrefix(offset, len, ok) => PrefixStep(w, source, limit, offset, len, ok)
    case Prefetch(offset, len, ok) => PrefetchStep(w, source, limit, offset, len, ok)
    case ReadWindow(offset, len, ok) => WindowStep(w, source, policy, offset, len, ok)
  }

  /** What a use of the cache must look like from outside: the uncached read, or a stated refusal. */
  ghost predicate LooksUncached(source: seq<byte>, policy: nat, op: Op, r: Fetched) {
    match r
    case Ok(bytes) => op.offset + op.len <= |source| &&
                      bytes == if op.Prefetch? then [] else Plain(source, op.offset, op.len)
    case Err(UnexpectedEof) => op.offset + op.len > |source| || (op.ReadPrefix? && op.len > 64)
    case Err(IoFailure) => !op.ok
    case Err(Exceeded) => op.ReadWindow? && op.len > policy
    case Err(InvalidInput) => op.ReadWindow? && op.len > 0x400_0000
  }

  lemma {:induction false} ServedIsPlain(w: Window, source: seq<byte>, offset: nat, len: nat)
    requires Agrees(w, source) && Serves(w, offset, len) && offset + len <= |source|
    ensures Served(w, offset, len) == Plain(source, offset, len)
  {
    if w.bytes != [] {
      SliceOfSlice(source, w.offset, w.offset + |w.bytes|, offset - w.offset, offset - w.offset + len);
    }
  }

  lemma {:induction false} PrefixAgrees(w: Window, source: seq<byte>, limit: nat, offset: nat, len: nat, ok: bool)
    requires Agrees(w, source)
    ensures var (v, r) := PrefixStep(w, source, limit, offset, len, ok);
            && Agrees(v, source) && v.capacity <= Max(w.capacity, limit)
            && LooksUncached(source, 0, ReadPrefix(offset, len, ok), r)
            && (v.bytes == [] || v == w || |v.bytes| <= limit)
  {
    if len <= MAX_METADATA_PREFIX_BYTES && offset + len <= |source| {
      var v := Shrunk(w, Min(limit, METADATA_LOOKAHEAD_BYTES));
      if len == 0 {
        assert Plain(source, offset, 0) == [];
      } else if Serves(v, offset, len) {
        ServedIsPlain(v, source, offset, len);
      } else if FillLength(v, source, offset, limit) >= len {
        assert Plain(source, offset, FillLength(v, source, offset, limit))[..len] == Plain(source, offset, len);
      }
    }
  }

  /** One step keeps the cache in agreement with the source, answers like an uncached read, and grows the
      window only up to the limit in force. */
  lemma {:induction false} StepAgrees(w: Window, source: seq<byte>, limit: nat, policy: nat, op: Op)
    requires Agrees(w, source)
    ensures var (v, r) := Step(w, source, limit, policy, op);
            && Agrees(v, source) && v.capacity <= Max(w.capacity, limit)
            && LooksUncached(source, policy, op, r)
            && (v.bytes == [] || v == w || |v.bytes| <= limit)
  {
    match op
    case ReadPrefix(offset, len, ok) => PrefixAgrees(w, source, limit, offset, len, ok);
    case Prefetch(offset, len, ok) =>
    case ReadWindow(offset, len, ok) =>
      if offset + len <= |source| && Serves(w, offset, len) { ServedIsPlain(w, source, offset, len); }
  }

  // ----- runs -----

  /** The window and the answers after a run of uses, from an empty window. */
  function Run(source: seq<byte>, limit: nat, policy: nat, ops: seq<Op>): (Window, seq<Fetched>) {
    if ops == [] then (Window(0, [], 0), []) else
      var before := Run(source, limit, policy, ops[..|ops| - 1]);
      var (w, r) := Step(before.0, source, limit, policy, ops[|ops| - 1]);
      (w, before.1 + [r])
  }

  /** Over every run of reads, prefetches and failed fills, each answer is the uncached one, the retained
      window equals the source, and it stays within the capacity limit. */
  lemma {:induction false} RunAgrees(source: seq<byte>, limit: nat, policy: nat, ops: seq<Op>)
    requires limit <= METADATA_LOOKAHEAD_BYTES
    ensures var (w, answers) := Run(source, limit, policy, ops);
            && Agrees(w, source) && |w.bytes| <= w.capacity <= limit
            && |answers| == |ops|
            && forall k :: 0 <= k < |ops| ==> LooksUncached(source, policy, ops[k], answers[k])
  {
    if ops != [] {
      var n := |ops| - 1;
      RunAgrees(source, limit, policy, ops[..n]);
      StepAgrees(Run(source, limit, policy, ops[..n]).0, source, limit, policy, ops[n]);
    }
  }

  // ----- the cache as the engine keeps it -----

  class MetadataWindow {
    var offset: nat
    var bytes: seq<byte>
    var capacity: nat

    ghost function State(): Window
      reads this
    {
      Window(offset, bytes, capacity)
    }

    constructor ()
      ensures State() == Window(0, [], 0)
    {
      offset, bytes, capacity := 0, [], 0;
    }

    method Read(source: MediaSource, offset: nat, len: nat, limit: nat) returns (r: Fetched)
      requires Agrees(State(), source.bytes)
      modifies this, source
      ensures (State(), r) == PrefixStep(old(State()), source.bytes, limit, offset, len,
                                         old(source.readOperations) !in source.faults)
      ensures source.readOperations == old(source.readOperations) +
                                       if PrefixReads(old(State()), source.bytes, limit, offset, len) then 1 else 0
    {
      if len > MAX_METADATA_PREFIX_BYTES || offset + len > |source.bytes| { return Err(UnexpectedEof); }
      if len == 0 { return Ok([]); }
      if capacity > Min(limit, METADATA_LOOKAHEAD_BYTES) { bytes, capacity := [], 0; }
      if this.offset <= offset && offset - this.offset + len <= |bytes| {
        return Ok(bytes[offset - this.offset..offset - this.offset + len]);
      }
      var dense := bytes != [] && this.offset <= offset && offset - this.offset <= |bytes| + DENSE_SLACK_BYTES;
      var lookahead := if dense then 2 * |bytes| else METADATA_INITIAL_BYTES;
      var fill := Min(limit, Min(METADATA_LOOKAHEAD_BYTES, Min(lookahead, |source.bytes| - offset)));
      if fill < len {
        r := source.ReadExactCounted(offset, len);
        return;
      }
      r := Refill(source, offset, fill);
      if r.Ok? { r := Ok(bytes[..len]); }
    }

    method Refill(source: MediaSource, offset: nat, len: nat) returns (r: Fetched)
      requires offset + len <= |source.bytes|
      modifies this, source
      ensures State() == Refilled(old(State()), source.bytes, offset, len, r.Ok?)
      ensures r == if old(source.readOperations) in source.faults then Err(IoFailure) else Ok([])
      ensures source.readOperations == old(source.readOperations) + 1
    {
      bytes := [];
      capacity := Max(capacity, len);
      var got := source.ReadExactCounted(offset, len);
      if got.Err? { return Err(IoFailure); }
      bytes := got.value;
      this.offset := offset;
      return Ok([]);
    }

    method PrefetchMetadataSpan(source: MediaSource, offset: nat, len: nat, limit: nat) returns (r: Fetched)
      modifies this, source
      ensures (State(), r) == PrefetchStep(old(State()), source.bytes, limit, offset, len,
                                           old(source.readOperations) !in source.faults)
      ensures source.readOperations == old(source.readOperations) +
                                       if PrefetchReads(old(State()), source.bytes, limit, offset, len) then 1 else 0
    {
      if offset + len > |source.bytes| { return Err(UnexpectedEof); }
      if len == 0 || len > limit { return Ok([]); }
      if this.offset <= offset && offset - this.offset + len <= |bytes| { return Ok([]); }
      if capacity > limit { bytes, capacity := [], 0; }
      r := Refill(source, offset, len);
    }

    method ReadWindowUnvalidated(source: MediaSource, offset: nat, len: nat) returns (r: Fetched)
      modifies source
      ensures (State(), r) == WindowStep(old(State()), source.bytes, source.compressedWindowBytes, offset, len,
                                         old(source.readOperations) !in source.faults)
      ensures source.readOperations ==
              old(source.readOperations) +
              if WindowReads(old(State()), source.bytes, source.compressedWindowBytes, offset, len) then 1 else 0
    {
      if len > source.compressedWindowBytes { return Err(Exceeded); }
      if offset + len > |source.bytes| { return Err(UnexpectedEof); }
      if this.offset <= offset && offset - this.offset + len <= |bytes| {
        return Ok(bytes[offset - this.offset..offset - this.offset + len]);
      }
      if len > MAX_BUFFER_BYTES { return Err(InvalidInput); }
      r := source.ReadExactCounted(offset, len);
    }
  }
}
