/** Publication of an output by several publishers of one path at once: temporary files and a hard link that never
    replaces what is there. Every system call is one step of an interleaved run, and may fail. */
module Publish {
  import opened Machine

  const CHUNK := 16384
  const MAX_ATTEMPTS := 128

  type Inode = nat
  /** Temporary names are longer than the target's, so they live in a space of their own. */
  type Name = nat

  /** What a path leads to: a regular file, or something else such as a directory. */
  datatype Node = File(inode: Inode) | NotAFile

  datatype Disk = Disk(content: map<Inode, seq<byte>>, target: Option<Node>, temps: map<Name, Inode>, next: Inode)

  /** A publisher that takes an identical file for its own (the default for parts), or one that does not (streamed
      outputs, and parts that ask for it). */
  datatype Job = Job(acceptIdentical: bool, parts: seq<seq<byte>>) {
    function Data(): seq<byte> { Flatten(parts) }
  }

  datatype Refusal = Visible | NamesTaken | LinkRefused | Io

  /** A temporary file the publisher created. */
  datatype Hold = Hold(name: Name, inode: Inode)

  datatype Pc =
    | Opening(hold: Option<Hold>)
    | Comparing(hold: Option<Hold>, file: Inode, offset: nat, rest: seq<seq<byte>>)
    | Checking
    | Creating(attempt: nat)
    | Writing(temp: Hold, written: nat)
    | Linking(temp: Hold)
    | Removing(temp: Hold)
    | Cleaning(temp: Hold, why: Refusal)
    | Done(refusal: Option<Refusal>, mine: Option<Hold>, left: bool)

  datatype Publisher = Publisher(job: Job, pc: Pc)

  /** How one system call goes: it fails, or does its work with a number only the system knows (the temporary name
      of the moment, or how many bytes a write takes). */
  datatype Call = Call(fails: bool, n: nat)

  datatype Local = Local(disk: Disk, pc: Pc)

  // ----- the comparison -----

  function Chunks(part: seq<byte>): (r: seq<seq<byte>>)
    ensures Flatten(r) == part
    decreases |part|
  {
    if |part| == 0 then []
    else if |part| <= CHUNK then Whole(part); [part]
    else CutJoins(part, Chunks(part[CHUNK..])); [part[..CHUNK]] + Chunks(part[CHUNK..])
  }

  lemma {:induction false} Whole(part: seq<byte>)
    ensures Flatten([part]) == part
  {
    assert [part][1..] == [];
  }

  lemma {:induction false} CutJoins(part: seq<byte>, rest: seq<seq<byte>>)
    requires |part| >= CHUNK && Flatten(rest) == part[CHUNK..]
    ensures Flatten([part[..CHUNK]] + rest) == part
  {
    assert ([part[..CHUNK]] + rest)[1..] == rest;
    assert part[..CHUNK] + part[CHUNK..] == part;
  }

  /** Every part in chunks of at most 16 KiB. */
  function ChunkList(parts: seq<seq<byte>>): (r: seq<seq<byte>>)
    ensures Flatten(r) == Flatten(parts)
  {
    if parts == [] then [] else
      FlattenAppend(Chunks(parts[0]), ChunkList(parts[1..]));
      Chunks(parts[0]) + ChunkList(parts[1..])
  }

  lemma {:induction false} ChunksFit(parts: seq<seq<byte>>)
    ensures forall chunk :: chunk in ChunkList(parts) ==> |chunk| <= CHUNK
    decreases |parts|
  {
    if parts != [] {
      PartFits(parts[0]);
      ChunksFit(parts[1..]);
    }
  }

  lemma {:induction false} PartFits(part: seq<byte>)
    ensures forall chunk :: chunk in Chunks(part) ==> |chunk| <= CHUNK
    decreases |part|
  {
    if |part| > CHUNK { PartFits(part[CHUNK..]); }
  }

  /** One chunk compared: it is the same in both exactly when they agree up to its end. */
  lemma {:induction false} ChunkStep(data: seq<byte>, bytes: seq<byte>, offset: nat, rest: seq<seq<byte>>)
    requires offset <= |data| == |bytes| && bytes[..offset] == data[..offset] && Flatten(rest) == data[offset..] &&
             rest != []
    ensures var k := offset + |rest[0]|;
            && k <= |data| && Flatten(rest[1..]) == data[k..]
            && (bytes[offset..k] == rest[0] <==> bytes[..k] == data[..k])
  {
    var k, tail := offset + |rest[0]|, Flatten(rest[1..]);
    assert data[offset..] == rest[0] + tail;
    assert data[offset..k] == data[offset..][..k - offset] == rest[0];
    assert data[k..] == data[offset..][k - offset..] == tail;
    Split(data, offset, k);
    Split(bytes, offset, k);
  }

  lemma {:induction false} Split(s: seq<byte>, i: nat, k: nat)
    requires i <= k <= |s|
    ensures s[..k] == s[..i] + s[i..k] && s[..k][i..] == s[i..k]
  {
  }

  class OpenFile {
    const bytes: seq<byte>
    var cursor: nat

    constructor (bytes: seq<byte>)
      ensures this.bytes == bytes && cursor == 0
    {
      this.bytes := bytes;
      cursor := 0;
    }

    /** Fills the first `n` bytes of the buffer, or finds the end of the file too early. */
    method ReadExact(buffer: array<byte>, n: nat) returns (ok: bool)
      requires cursor <= |bytes| && n <= buffer.Length
      modifies this`cursor, buffer
      ensures ok == (old(cursor) + n <= |bytes|) && cursor == if ok then old(cursor) + n else |bytes|
      ensures ok ==> buffer[..n] == bytes[old(cursor)..cursor]
    {
      var i := 0;
      while i < n && cursor < |bytes|
        invariant i <= n && cursor == old(cursor) + i <= |bytes|
        invariant forall k :: 0 <= k < i ==> buffer[k] == bytes[old(cursor) + k]
        decreases n - i
      {
        buffer[i] := bytes[cursor];
        i, cursor := i + 1, cursor + 1;
      }
      ok := i == n;
    }
  }

  /** The length of all parts, unless it leaves `u64`. */
  method TotalLength(parts: seq<seq<byte>>) returns (r: Option<u64>)
    ensures r == if |Flatten(parts)| > U64_MAX then None else Some(|Flatten(parts)|)
  {
    var total: nat, i := 0, 0;
    assert parts[0..] == parts;
    while i < |parts|
      invariant i <= |parts| && total <= U64_MAX && total + |Flatten(parts[i..])| == |Flatten(parts)|
    {
      assert parts[i..][1..] == parts[i + 1..];
      total := total + |parts[i]|;
      if total > U64_MAX { return None; }
      i := i + 1;
    }
    assert parts[i..] == [];
    return Some(total);
  }

  /** Chunk by chunk through one buffer. */
  method SameChunks(handle: OpenFile, chunks: seq<seq<byte>>, ghost data: seq<byte>) returns (same: bool)
    requires handle.cursor == 0 && |handle.bytes| == |data| && Flatten(chunks) == data
    requires forall chunk :: chunk in chunks ==> |chunk| <= CHUNK
    modifies handle`cursor
    ensures handle.cursor <= |data| && same == (handle.bytes == data) && (same ==> handle.cursor == |data|)
  {
    var buffer := new byte[CHUNK](_ => 0);
    var k := 0;
    assert chunks[0..] == chunks && data[0..] == data;
    while k < |chunks|
      invariant k <= |chunks| && handle.cursor <= |data| && fresh(buffer)
      invariant handle.bytes[..handle.cursor] == data[..handle.cursor] && Flatten(chunks[k..]) == data[handle.cursor..]
    {
      var chunk := chunks[k];
      assert chunks[k..][1..] == chunks[k + 1..] && chunks[k..][0] == chunk;
      ChunkStep(data, handle.bytes, handle.cursor, chunks[k..]);
      var ok := handle.ReadExact(buffer, |chunk|);
      if !ok || buffer[..|chunk|] != chunk { return false; }
      k := k + 1;
    }
    assert data[..handle.cursor] == data && handle.bytes[..handle.cursor] == handle.bytes by {
      assert chunks[k..] == [];
      assert |data[handle.cursor..]| == 0;
    }
    return true;
  }

  /** The comparison with nothing failing: the path is a file with exactly the bytes of the parts. */
  method ExistingFileMatchesParts(file: Option<seq<byte>>, parts: seq<seq<byte>>) returns (r: Result<bool, Refusal>)
    ensures r == if file.None? then Ok(false)
                 else if |Flatten(parts)| > U64_MAX then Err(Io)
                 else Ok(file.value == Flatten(parts))
  {
    if file.None? { return Ok(false); }
    ghost var data := Flatten(parts);
    var total := TotalLength(parts);
    if total.None? { return Err(Io); }
    if |file.value| != total.value { return Ok(false); }
    var handle := new OpenFile(file.value);
    ChunksFit(parts);
    var same := SameChunks(handle, ChunkList(parts), data);
    if !same { return Ok(false); }
    var buffer := new byte[1](_ => 0);
    var more := handle.ReadExact(buffer, 1);
    return Ok(!more);
  }

  /** The path is a regular file with exactly these bytes. */
  predicate Shows(disk: Disk, data: seq<byte>) {
    && disk.target.Some? && disk.target.value.File? && disk.target.value.inode in disk.content
    && disk.content[disk.target.value.inode] == data
  }

  // ----- one step of one publisher -----

  function Start(job: Job): Publisher { Publisher(job, if job.acceptIdentical then Opening(None) else Checking) }

  /** The file at the path is not this publisher's. */
  function Differs(hold: Option<Hold>): Pc { if hold.Some? then Cleaning(hold.value, LinkRefused) else Checking }

  function Same(hold: Option<Hold>): Pc { if hold.Some? then Removing(hold.value) else Done(None, None, false) }

  function Failed(hold: Option<Hold>, why: Refusal): Pc {
    if hold.Some? then Cleaning(hold.value, why) else Done(Some(why), None, false)
  }

  function StepOpening(d: Disk, job: Job, pc: Pc, c: Call): Local
    requires pc.Opening?
  {
    if c.fails then Local(d, Failed(pc.hold, Io))
    else if d.target.None? || d.target.value.NotAFile? || d.target.value.inode !in d.content
            || |d.content[d.target.value.inode]| != |job.Data()| then Local(d, Differs(pc.hold))
    else Local(d, Comparing(pc.hold, d.target.value.inode, 0, ChunkList(job.parts)))
  }

  function StepComparing(d: Disk, pc: Pc, c: Call): Local
    requires pc.Comparing?
  {
    if c.fails || pc.file !in d.content then Local(d, Failed(pc.hold, Io)) else
      var bytes := d.content[pc.file];
      if pc.rest == [] then Local(d, if pc.offset < |bytes| then Differs(pc.hold) else Same(pc.hold)) else
        var chunk := pc.rest[0];
        if pc.offset + |chunk| > |bytes| || bytes[pc.offset..pc.offset + |chunk|] != chunk
        then Local(d, Differs(pc.hold))
        else Local(d, Comparing(pc.hold, pc.file, pc.offset + |chunk|, pc.rest[1..]))
  }

  function StepCreating(d: Disk, pc: Pc, c: Call): Local
    requires pc.Creating?
  {
    if c.fails then Local(d, Done(Some(Io), None, false))
    else if pc.attempt >= MAX_ATTEMPTS then Local(d, Done(Some(NamesTaken), None, false))
    else if c.n in d.temps then Local(d, Creating(pc.attempt + 1))
    else Local(d.(content := d.content[d.next := []], temps := d.temps[c.n := d.next], next := d.next + 1),
               Writing(Hold(c.n, d.next), 0))
  }

  /** A write takes one byte or more of what is left; a failing one may have taken some. */
  function StepWriting(d: Disk, job: Job, pc: Pc, c: Call): Local
    requires pc.Writing?
  {
    if pc.temp.inode !in d.content || pc.written > |job.Data()| then Local(d, Cleaning(pc.temp, Io)) else
      var left := |job.Data()| - pc.written;
      var n := if c.fails then Min(c.n, left) else Min(Max(c.n, 1), left);
      var more := d.content[pc.temp.inode] + job.Data()[pc.written..pc.written + n];
      if c.fails then Local(d.(content := d.content[pc.temp.inode := more]), Cleaning(pc.temp, Io))
      else if left == 0 then Local(d, Linking(pc.temp))
      else Local(d.(content := d.content[pc.temp.inode := more]), Writing(pc.temp, pc.written + n))
  }

  /** The link is atomic and never replaces. */
  function StepLinking(d: Disk, job: Job, pc: Pc, c: Call): Local
    requires pc.Linking?
  {
    if c.fails || pc.temp.name !in d.temps then Local(d, Cleaning(pc.temp, Io))
    else if d.target.None? then Local(d.(target := Some(File(d.temps[pc.temp.name]))), Removing(pc.temp))
    else Local(d, if job.acceptIdentical then Opening(Some(pc.temp)) else Cleaning(pc.temp, LinkRefused))
  }

  function StepLocal(d: Disk, job: Job, pc: Pc, c: Call): Local {
    match pc
    case Opening(_) => StepOpening(d, job, pc, c)
    case Comparing(_, _, _, _) => StepComparing(d, pc, c)
    case Checking =>
      // a check that fails answers as if nothing were there
      Local(d, if !c.fails && d.target.Some? then Done(Some(Visible), None, false) else Creating(0))
    case Creating(_) => StepCreating(d, pc, c)
    case Writing(_, _) => StepWriting(d, job, pc, c)
    case Linking(_) => StepLinking(d, job, pc, c)
    case Removing(temp) =>
      if c.fails then Local(d, Cleaning(temp, Io))
      else Local(d.(temps := d.temps - {temp.name}), Done(None, Some(temp), false))
    case Cleaning(temp, why) =>
      if c.fails then Local(d, Done(Some(why), Some(temp), true))
      else Local(d.(temps := d.temps - {temp.name}), Done(Some(why), Some(temp), false))
    case Done(_, _, _) => Local(d, pc)
  }

  // ----- runs -----

  datatype State = State(disk: Disk, pubs: seq<Publisher>)

  datatype Move = Move(pid: nat, call: Call)

  function Step(s: State, m: Move): State {
    if m.pid >= |s.pubs| then s else
      var p := s.pubs[m.pid];
      var r := StepLocal(s.disk, p.job, p.pc, m.call);
      State(r.disk, s.pubs[m.pid := Publisher(p.job, r.pc)])
  }

  function Run(s: State, moves: seq<Move>): State
    decreases |moves|
  {
    if moves == [] then s else Run(Step(s, moves[0]), moves[1..])
  }

  function StartAll(jobs: seq<Job>): (r: seq<Publisher>)
    ensures |r| == |jobs| && forall i :: 0 <= i < |jobs| ==> r[i] == Start(jobs[i])
  {
    if jobs == [] then [] else [Start(jobs[0])] + StartAll(jobs[1..])
  }

  function Begin(disk: Disk, jobs: seq<Job>): State { State(disk, StartAll(jobs)) }

  // ----- what every step keeps -----

  /** The temporary file a publisher still has to remove. */
  function Holding(pc: Pc): Option<Hold> {
    match pc
    case Opening(hold) => hold
    case Comparing(hold, _, _, _) => hold
    case Checking => None
    case Creating(_) => None
    case Writing(temp, _) => Some(temp)
    case Linking(temp) => Some(temp)
    case Removing(temp) => Some(temp)
    case Cleaning(temp, _) => Some(temp)
    case Done(_, mine, left) => if left then mine else None
  }

  /** The temporary file a publisher has, or had. */
  function Own(pc: Pc): Option<Hold> { if pc.Done? then pc.mine else Holding(pc) }

  predicate Held(d: Disk, h: Hold) { h.name in d.temps && d.temps[h.name] == h.inode && h.inode in d.content }

  predicate WellFormed(d: Disk) {
    && (forall i :: i in d.content ==> i < d.next)
    && (d.target.Some? && d.target.value.File? ==> d.target.value.inode in d.content)
  }

  predicate Good(d: Disk, p: Publisher) {
    var data := p.job.Data();
    && (Own(p.pc).Some? ==> Own(p.pc).value.inode in d.content)
    && (Holding(p.pc).Some? ==> Held(d, Holding(p.pc).value))
    && match p.pc
       case Opening(hold) =>
         p.job.acceptIdentical && (hold.Some? ==> d.target.Some? && d.content[hold.value.inode] == data)
       case Comparing(hold, file, offset, rest) =>
         && p.job.acceptIdentical && d.target == Some(File(file)) && file in d.content
         && offset <= |data| == |d.content[file]| && d.content[file][..offset] == data[..offset]
         && Flatten(rest) == data[offset..]
       case Checking => true
       case Creating(_) => true
       case Writing(temp, written) =>
         written <= |data| && d.content[temp.inode] == data[..written] && d.target != Some(File(temp.inode))
       case Linking(temp) => d.content[temp.inode] == data && d.target != Some(File(temp.inode))
       case Removing(temp) => Shows(d, data) && (p.job.acceptIdentical || d.target == Some(File(temp.inode)))
       case Cleaning(temp, _) => true
       case Done(refusal, mine, left) =>
         && (left ==> mine.Some?)
         && (refusal.None? ==>
               && Shows(d, data)
               && (p.job.acceptIdentical || (mine.Some? && d.target == Some(File(mine.value.inode)))))
  }

  /** Two publishers have different temporary files. */
  predicate Apart(p: Pc, q: Pc) {
    && (Own(p).Some? && Own(q).Some? ==> Own(p).value.inode != Own(q).value.inode)
    && (Holding(p).Some? && Holding(q).Some? ==> Holding(p).value.name != Holding(q).value.name)
  }

  /** All a step of the owner of `own` does to the disk, as far as others can see. */
  predicate Spares(d: Disk, e: Disk, own: Option<Hold>) {
    && (d.target == e.target || (d.target.None? && own.Some? && e.target == Some(File(own.value.inode))))
    && (forall i :: i in d.content && !(own.Some? && own.value.inode == i) ==>
        i in e.content && e.content[i] == d.content[i])
    && (forall i :: i in d.content ==> i in e.content)
    && (d.target.Some? && d.target.value.File? && d.target.value.inode in d.content ==>
          e.content[d.target.value.inode] == d.content[d.target.value.inode])
    && (forall n :: n in d.temps && !(own.Some? && own.value.name == n) ==> n in e.temps && e.temps[n] == d.temps[n])
  }

  lemma {:induction false} ShowsLasts(d: Disk, e: Disk, own: Option<Hold>, data: seq<byte>)
    requires Spares(d, e, own) && Shows(d, data)
    ensures Shows(e, data) && e.target == d.target
  {
  }

  /** A step of one publisher leaves the others as good as they were. */
  lemma {:induction false} OthersStayGood(d: Disk, e: Disk, own: Pc, q: Publisher)
    requires Good(d, q) && Spares(d, e, Holding(own)) && Apart(own, q.pc)
    requires Holding(own).Some? ==> Own(own) == Holding(own)
    ensures Good(e, q)
  {
    if q.pc.Removing? || (q.pc.Done? && q.pc.refusal.None?) { ShowsLasts(d, e, Holding(own), q.job.Data()); }
  }

  lemma {:induction false} HoldingIsOwn(pc: Pc)
    ensures Holding(pc).Some? ==> Own(pc) == Holding(pc)
  {
  }

  lemma {:induction false} ComparingEnd(d: Disk, p: Publisher)
    requires Good(d, p) && p.pc.Comparing? && p.pc.rest == []
    ensures p.pc.offset == |p.job.Data()| && d.content[p.pc.file] == p.job.Data()
  {
    var data, bytes := p.job.Data(), d.content[p.pc.file];
    assert data[p.pc.offset..] == [];
    assert data[..p.pc.offset] == data && bytes[..p.pc.offset] == bytes;
  }

  lemma {:induction false} ComparingChunk(d: Disk, p: Publisher, k: nat)
    requires Good(d, p) && p.pc.Comparing? && p.pc.rest != [] && k == p.pc.offset + |p.pc.rest[0]|
    ensures k <= |p.job.Data()| == |d.content[p.pc.file]|
    ensures d.content[p.pc.file][p.pc.offset..k] == p.pc.rest[0] ==>
              Good(d, Publisher(p.job, Comparing(p.pc.hold, p.pc.file, k, p.pc.rest[1..])))
    ensures d.content[p.pc.file] == p.job.Data() ==> d.content[p.pc.file][p.pc.offset..k] == p.pc.rest[0]
  {
    ChunkStep(p.job.Data(), d.content[p.pc.file], p.pc.offset, p.pc.rest);
  }

  lemma {:induction false} ComparingStep(d: Disk, p: Publisher, c: Call)
    requires WellFormed(d) && Good(d, p) && p.pc.Comparing?
    ensures StepComparing(d, p.pc, c).disk == d && Good(d, Publisher(p.job, StepComparing(d, p.pc, c).pc))
  {
    if p.pc.rest == [] {
      ComparingEnd(d, p);
    } else {
      ComparingChunk(d, p, p.pc.offset + |p.pc.rest[0]|);
    }
  }

  lemma {:induction false} WritingStep(d: Disk, p: Publisher, c: Call)
    requires WellFormed(d) && Good(d, p) && p.pc.Writing?
    ensures var r := StepLocal(d, p.job, p.pc, c);
            Good(r.disk, Publisher(p.job, r.pc)) && Spares(d, r.disk, Holding(p.pc))
  {
    var data, w := p.job.Data(), p.pc.written;
    var left := |data| - w;
    var n := Min(Max(c.n, 1), left);
    assert data[..w + n] == data[..w] + data[w..w + n];
    assert left == 0 ==> data[..w] == data;
  }

  lemma {:induction false} OpeningStep(d: Disk, p: Publisher, c: Call)
    requires WellFormed(d) && Good(d, p) && p.pc.Opening?
    ensures StepOpening(d, p.job, p.pc, c).disk == d && Good(d, Publisher(p.job, StepOpening(d, p.job, p.pc, c).pc))
  {
    var r, data := StepOpening(d, p.job, p.pc, c).pc, p.job.Data();
    assert data[0..] == data;
    if r.Comparing? { assert d.content[r.file][..0] == data[..0]; }
  }

  /** The step of a good publisher keeps it good, keeps the disk in order and spares the others. */
  lemma {:induction false} StaysGood(d: Disk, p: Publisher, c: Call)
    requires WellFormed(d) && Good(d, p)
    ensures var r := StepLocal(d, p.job, p.pc, c);
            WellFormed(r.disk) && Good(r.disk, Publisher(p.job, r.pc)) && Spares(d, r.disk, Holding(p.pc))
  {
    hide Flatten;
    if p.pc.Comparing? {
      ComparingStep(d, p, c);
    } else if p.pc.Writing? {
      WritingStep(d, p, c);
    } else if p.pc.Opening? {
      OpeningStep(d, p, c);
    }
  }

  /** A publisher's temporary file is the one it had, or a new one. */
  lemma {:induction false} OwnStays(d: Disk, p: Publisher, c: Call)
    requires WellFormed(d) && Good(d, p)
    ensures var r := StepLocal(d, p.job, p.pc, c);
            && (Own(r.pc) == Own(p.pc) || (Own(p.pc).None? && Own(r.pc).Some? && Own(r.pc).value.inode == d.next))
            && (Holding(r.pc).None? || Holding(r.pc) == Holding(p.pc)
                || (Holding(p.pc).None? && Holding(r.pc).value.name !in d.temps))
  {
  }

  lemma {:induction false} StaysApart(d: Disk, p: Publisher, q: Publisher, c: Call)
    requires WellFormed(d) && Good(d, p) && Good(d, q) && Apart(p.pc, q.pc)
    ensures Apart(StepLocal(d, p.job, p.pc, c).pc, q.pc)
  {
    OwnStays(d, p, c);
    HoldingIsOwn(p.pc);
    HoldingIsOwn(StepLocal(d, p.job, p.pc, c).pc);
  }

  ghost predicate Inv(s: State) {
    && WellFormed(s.disk)
    && (forall i :: 0 <= i < |s.pubs| ==> Good(s.disk, s.pubs[i]))
    && (forall i, j :: 0 <= i < |s.pubs| && 0 <= j < |s.pubs| && i != j ==> Apart(s.pubs[i].pc, s.pubs[j].pc))
  }

  lemma {:induction false} ApartBothWays(p: Pc, q: Pc)
    requires Apart(p, q)
    ensures Apart(q, p)
  {
  }

  lemma {:induction false} StepKeepsInv(s: State, m: Move)
    requires Inv(s)
    ensures Inv(Step(s, m))
  {
    if m.pid < |s.pubs| {
      var t, k, p := Step(s, m), m.pid, s.pubs[m.pid];
      StaysGood(s.disk, p, m.call);
      HoldingIsOwn(p.pc);
      forall i | 0 <= i < |t.pubs|
        ensures Good(t.disk, t.pubs[i])
        ensures i != k ==> Apart(t.pubs[k].pc, t.pubs[i].pc) && Apart(t.pubs[i].pc, t.pubs[k].pc)
      {
        if i != k {
          assert Apart(p.pc, s.pubs[i].pc);
          OthersStayGood(s.disk, t.disk, p.pc, s.pubs[i]);
          StaysApart(s.disk, p, s.pubs[i], m.call);
          ApartBothWays(t.pubs[k].pc, t.pubs[i].pc);
        }
      }
      forall i, j | 0 <= i < |t.pubs| && 0 <= j < |t.pubs| && i != j ensures Apart(t.pubs[i].pc, t.pubs[j].pc) {
        if i != k && j != k { assert Apart(s.pubs[i].pc, s.pubs[j].pc); }
      }
    }
  }

  lemma {:induction false} RunKeepsInv(s: State, moves: seq<Move>)
    requires Inv(s)
    ensures Inv(Run(s, moves)) && SameJobs(s, Run(s, moves))
    decreases |moves|
  {
    if moves != [] {
      StepKeepsInv(s, moves[0]);
      RunKeepsInv(Step(s, moves[0]), moves[1..]);
    }
  }

  predicate SameJobs(s: State, t: State) {
    |s.pubs| == |t.pubs| && forall i :: 0 <= i < |s.pubs| ==> s.pubs[i].job == t.pubs[i].job
  }

  lemma {:induction false} BeginIsInv(disk: Disk, jobs: seq<Job>)
    requires WellFormed(disk)
    ensures Inv(Begin(disk, jobs))
  {
  }

  // ----- what every run keeps -----

  lemma {:induction false} StepKeepsTarget(s: State, m: Move)
    requires Inv(s) && s.disk.target.Some?
    ensures Step(s, m).disk.target == s.disk.target
    ensures forall data :: Shows(s.disk, data) ==> Shows(Step(s, m).disk, data)
  {
    if m.pid < |s.pubs| {
      var p := s.pubs[m.pid];
      StaysGood(s.disk, p, m.call);
    }
  }

  lemma {:induction false} RunKeepsTarget(s: State, moves: seq<Move>)
    requires Inv(s) && s.disk.target.Some?
    ensures Run(s, moves).disk.target == s.disk.target
    ensures forall data :: Shows(s.disk, data) ==> Shows(Run(s, moves).disk, data)
    decreases |moves|
  {
    if moves != [] {
      StepKeepsInv(s, moves[0]);
      StepKeepsTarget(s, moves[0]);
      RunKeepsTarget(Step(s, moves[0]), moves[1..]);
    }
  }

  /** What is at the path is all some publisher's bytes. */
  ghost predicate FromPublisher(s: State) {
    exists i :: 0 <= i < |s.pubs| && Shows(s.disk, s.pubs[i].job.Data())
  }

  lemma {:induction false} StepShowsComplete(s: State, m: Move)
    requires Inv(s) && s.disk.target.None? && Step(s, m).disk.target.Some?
    ensures FromPublisher(Step(s, m))
  {
    var p := s.pubs[m.pid];
    StaysGood(s.disk, p, m.call);
    assert p.pc.Linking? && Shows(Step(s, m).disk, Step(s, m).pubs[m.pid].job.Data());
  }

  lemma {:induction false} RunShowsComplete(s: State, moves: seq<Move>)
    requires Inv(s) && s.disk.target.None?
    ensures Run(s, moves).disk.target.None? || FromPublisher(Run(s, moves))
    decreases |moves|
  {
    if moves != [] {
      var t := Step(s, moves[0]);
      StepKeepsInv(s, moves[0]);
      if t.disk.target.None? {
        RunShowsComplete(t, moves[1..]);
      } else {
        StepShowsComplete(s, moves[0]);
        var i :| 0 <= i < |t.pubs| && Shows(t.disk, t.pubs[i].job.Data());
        RunKeepsInv(t, moves[1..]);
        RunKeepsTarget(t, moves[1..]);
        assert Shows(Run(t, moves[1..]).disk, Run(t, moves[1..]).pubs[i].job.Data());
      }
    }
  }

  /** Once something is at the path it stays there and its bytes stay the same, whatever the publishers still do. */
  lemma {:induction false} TargetNeverChanges(disk: Disk, jobs: seq<Job>, before: seq<Move>, after: seq<Move>)
    requires WellFormed(disk) && Run(Begin(disk, jobs), before).disk.target.Some?
    ensures var s := Run(Begin(disk, jobs), before);
            && Run(s, after).disk.target == s.disk.target
            && forall data :: Shows(s.disk, data) ==> Shows(Run(s, after).disk, data)
  {
    BeginIsInv(disk, jobs);
    RunKeepsInv(Begin(disk, jobs), before);
    RunKeepsTarget(Run(Begin(disk, jobs), before), after);
  }

  /** A path that was empty is never seen with anything but the complete bytes of one publisher. */
  lemma {:induction false} TargetIsComplete(disk: Disk, jobs: seq<Job>, moves: seq<Move>)
    requires WellFormed(disk) && disk.target.None?
    ensures var t := Run(Begin(disk, jobs), moves);
            t.disk.target.None? || exists i :: 0 <= i < |jobs| && Shows(t.disk, jobs[i].Data())
  {
    var s, t := Begin(disk, jobs), Run(Begin(disk, jobs), moves);
    BeginIsInv(disk, jobs);
    RunKeepsInv(s, moves);
    RunShowsComplete(s, moves);
    if t.disk.target.Some? {
      var i :| 0 <= i < |t.pubs| && Shows(t.disk, t.pubs[i].job.Data());
      assert Shows(t.disk, jobs[i].Data());
    }
  }

  predicate Succeeded(p: Publisher) { p.pc.Done? && p.pc.refusal.None? }

  /** Whoever reports success finds exactly its own bytes at the path; two that both do have the same bytes, and of
      two that take no file but their own at most one does. */
  lemma {:induction false} SuccessMeansPublished(disk: Disk, jobs: seq<Job>, moves: seq<Move>, i: nat, j: nat)
    requires WellFormed(disk) && i < |jobs| && j < |jobs|
    ensures var t := Run(Begin(disk, jobs), moves);
            && |t.pubs| == |jobs|
            && (Succeeded(t.pubs[i]) ==> Shows(t.disk, jobs[i].Data()))
            && (Succeeded(t.pubs[i]) && Succeeded(t.pubs[j]) ==> jobs[i].Data() == jobs[j].Data())
            && (i != j && !jobs[i].acceptIdentical && !jobs[j].acceptIdentical ==>
                  !(Succeeded(t.pubs[i]) && Succeeded(t.pubs[j])))
  {
    BeginIsInv(disk, jobs);
    RunKeepsInv(Begin(disk, jobs), moves);
    var t := Run(Begin(disk, jobs), moves);
    assert Good(t.disk, t.pubs[i]) && Good(t.disk, t.pubs[j]);
    if i != j { assert Apart(t.pubs[i].pc, t.pubs[j].pc); }
  }

  // ----- temporary files -----

  /** Every temporary file was there at first or is still some publisher's to remove. */
  ghost predicate Accounted(before: map<Name, Inode>, s: State) {
    forall n :: n in s.disk.temps ==>
      (n in before && s.disk.temps[n] == before[n]) || HeldBySome(s, n)
  }

  ghost predicate HeldBySome(s: State, n: Name) {
    exists i :: 0 <= i < |s.pubs| && Holding(s.pubs[i].pc).Some? && Holding(s.pubs[i].pc).value.name == n
  }

  /** A step takes from the directory only the file it stops holding, and adds only the file it starts to hold. */
  lemma {:induction false} TempsOfStep(d: Disk, p: Publisher, c: Call)
    requires WellFormed(d) && Good(d, p)
    ensures var r := StepLocal(d, p.job, p.pc, c);
            && (Holding(r.pc) == Holding(p.pc) ==> r.disk.temps == d.temps)
            && (Holding(p.pc).None? && Holding(r.pc).Some? ==>
                  r.disk.temps == d.temps[Holding(r.pc).value.name := Holding(r.pc).value.inode])
            && (Holding(p.pc).Some? && Holding(r.pc).None? ==> r.disk.temps == d.temps - {Holding(p.pc).value.name})
            && (Holding(p.pc).Some? && Holding(r.pc).Some? ==> Holding(r.pc) == Holding(p.pc))
  {
  }

  lemma {:induction false} StepAccounts(before: map<Name, Inode>, s: State, m: Move)
    requires Inv(s) && Accounted(before, s)
    ensures Accounted(before, Step(s, m))
  {
    if m.pid < |s.pubs| {
      var t, p := Step(s, m), s.pubs[m.pid];
      TempsOfStep(s.disk, p, m.call);
      forall n | n in t.disk.temps ensures (n in before && t.disk.temps[n] == before[n]) || HeldBySome(t, n) {
        if Holding(t.pubs[m.pid].pc).Some? && Holding(t.pubs[m.pid].pc).value.name == n {
          assert HeldBySome(t, n);
        } else {
          assert n in s.disk.temps && t.disk.temps[n] == s.disk.temps[n];
          if HeldBySome(s, n) {
            var i :| 0 <= i < |s.pubs| && Holding(s.pubs[i].pc).Some? && Holding(s.pubs[i].pc).value.name == n;
            assert i != m.pid;
            assert t.pubs[i] == s.pubs[i];
          }
        }
      }
    }
  }

  lemma {:induction false} RunAccounts(before: map<Name, Inode>, s: State, moves: seq<Move>)
    requires Inv(s) && Accounted(before, s)
    ensures Accounted(before, Run(s, moves))
    decreases |moves|
  {
    if moves != [] {
      StepKeepsInv(s, moves[0]);
      StepAccounts(before, s, moves[0]);
      RunAccounts(before, Step(s, moves[0]), moves[1..]);
    }
  }

  /** Files of others are never taken away. */
  lemma {:induction false} StepKeepsOthersTemps(before: map<Name, Inode>, s: State, m: Move)
    requires Inv(s) && OthersKept(before, s)
    ensures OthersKept(before, Step(s, m))
  {
    if m.pid < |s.pubs| {
      var t, p := Step(s, m), s.pubs[m.pid];
      TempsOfStep(s.disk, p, m.call);
      OwnStays(s.disk, p, m.call);
    }
  }

  /** The files there at first are still there, and no publisher holds one of their names. */
  ghost predicate OthersKept(before: map<Name, Inode>, s: State) {
    && (forall n :: n in before ==> n in s.disk.temps && s.disk.temps[n] == before[n])
    && (forall i :: 0 <= i < |s.pubs| && Holding(s.pubs[i].pc).Some? ==> Holding(s.pubs[i].pc).value.name !in before)
  }

  lemma {:induction false} RunKeepsOthersTemps(before: map<Name, Inode>, s: State, moves: seq<Move>)
    requires Inv(s) && OthersKept(before, s)
    ensures OthersKept(before, Run(s, moves))
    decreases |moves|
  {
    if moves != [] {
      StepKeepsInv(s, moves[0]);
      StepKeepsOthersTemps(before, s, moves[0]);
      RunKeepsOthersTemps(before, Step(s, moves[0]), moves[1..]);
    }
  }

  /** No call of this run that tries for the last time to remove a temporary file fails. */
  ghost predicate CleansUp(s: State, moves: seq<Move>)
    decreases |moves|
  {
    moves == [] ||
    (&& (moves[0].pid < |s.pubs| && s.pubs[moves[0].pid].pc.Cleaning? ==> !moves[0].call.fails)
     && CleansUp(Step(s, moves[0]), moves[1..]))
  }

  ghost predicate NothingLeft(s: State) {
    forall i :: 0 <= i < |s.pubs| && s.pubs[i].pc.Done? ==> !s.pubs[i].pc.left
  }

  lemma {:induction false} StepLeavesNothing(s: State, m: Move)
    requires Inv(s) && NothingLeft(s) && (m.pid < |s.pubs| && s.pubs[m.pid].pc.Cleaning? ==> !m.call.fails)
    ensures NothingLeft(Step(s, m))
  {
  }

  lemma {:induction false} RunLeavesNothing(s: State, moves: seq<Move>)
    requires Inv(s) && NothingLeft(s) && CleansUp(s, moves)
    ensures NothingLeft(Run(s, moves))
    decreases |moves|
  {
    if moves != [] {
      StepKeepsInv(s, moves[0]);
      StepLeavesNothing(s, moves[0]);
      RunLeavesNothing(Step(s, moves[0]), moves[1..]);
    }
  }

  /** At every moment, as long as no last removal has failed, each temporary file was there at first or belongs to a
      publisher that has not finished: one that has finished leaves none. */
  lemma {:induction false} TempsBelongToTheRunning(disk: Disk, jobs: seq<Job>, moves: seq<Move>)
    requires WellFormed(disk) && CleansUp(Begin(disk, jobs), moves)
    ensures var t := Run(Begin(disk, jobs), moves);
            && (forall n :: n in disk.temps ==> n in t.disk.temps && t.disk.temps[n] == disk.temps[n])
            && (forall n :: n in t.disk.temps ==> n in disk.temps || HeldByRunning(t, n))
  {
    var s, t := Begin(disk, jobs), Run(Begin(disk, jobs), moves);
    BeginIsInv(disk, jobs);
    RunAccounts(disk.temps, s, moves);
    RunKeepsOthersTemps(disk.temps, s, moves);
    RunLeavesNothing(s, moves);
    forall n | n in t.disk.temps ensures n in disk.temps || HeldByRunning(t, n) {
      if HeldBySome(t, n) {
        var i :| 0 <= i < |t.pubs| && Holding(t.pubs[i].pc).Some? && Holding(t.pubs[i].pc).value.name == n;
        assert !t.pubs[i].pc.Done?;
      }
    }
  }

  ghost predicate HeldByRunning(s: State, n: Name) {
    exists i :: 0 <= i < |s.pubs| && !s.pubs[i].pc.Done? && Holding(s.pubs[i].pc).Some? &&
        Holding(s.pubs[i].pc).value.name == n
  }

  predicate AllDone(s: State) { forall i :: 0 <= i < |s.pubs| ==> s.pubs[i].pc.Done? }

  /** When all publishers have finished and every last removal succeeded, the directory has exactly the temporary
      files it had before them. */
  lemma {:induction false} NoTempLeft(disk: Disk, jobs: seq<Job>, moves: seq<Move>)
    requires WellFormed(disk) && CleansUp(Begin(disk, jobs), moves)
    requires AllDone(Run(Begin(disk, jobs), moves))
    ensures Run(Begin(disk, jobs), moves).disk.temps == disk.temps
  {
    var s, t := Begin(disk, jobs), Run(Begin(disk, jobs), moves);
    BeginIsInv(disk, jobs);
    RunKeepsInv(s, moves);
    RunAccounts(disk.temps, s, moves);
    RunKeepsOthersTemps(disk.temps, s, moves);
    RunLeavesNothing(s, moves);
    NoneHeld(t);
    assert t.disk.temps == disk.temps;
  }

  lemma {:induction false} NoneHeld(t: State)
    requires AllDone(t) && NothingLeft(t)
    ensures forall n :: !HeldBySome(t, n)
  {
  }

  // ----- publishers of the same bytes -----

  /** Publishers that all accept an identical file and bring the same bytes, to a path that is empty or has them. */
  ghost predicate Agreed(s: State, data: seq<byte>) {
    && (s.disk.target.None? || Shows(s.disk, data))
    && forall i :: 0 <= i < |s.pubs| ==>
       s.pubs[i].job.acceptIdentical && s.pubs[i].job.Data() == data && Calm(s.pubs[i].pc)
  }

  /** Nothing went wrong but what a neighbour with the same bytes can cause. */
  predicate Calm(pc: Pc) {
    !pc.Cleaning? && (pc.Done? ==> pc.refusal in {None, Some(Visible), Some(NamesTaken)})
  }

  predicate Faultless(moves: seq<Move>) { forall i :: 0 <= i < |moves| ==> !moves[i].call.fails }

  lemma {:induction false} EqualCompares(d: Disk, p: Publisher, c: Call)
    requires Good(d, p) && p.pc.Comparing? && d.content[p.pc.file] == p.job.Data() && !c.fails
    ensures var r := StepComparing(d, p.pc, c).pc; r == Same(p.pc.hold) || (r.Comparing? && r.hold == p.pc.hold)
  {
    if p.pc.rest == [] {
      ComparingEnd(d, p);
    } else {
      ComparingChunk(d, p, p.pc.offset + |p.pc.rest[0]|);
    }
  }

  lemma {:induction false} StepStaysCalm(s: State, data: seq<byte>, m: Move)
    requires Inv(s) && Agreed(s, data) && !m.call.fails
    ensures Agreed(Step(s, m), data)
  {
    if m.pid < |s.pubs| {
      var p := s.pubs[m.pid];
      StaysGood(s.disk, p, m.call);
      if p.pc.Comparing? { EqualCompares(s.disk, p, m.call); }
      if s.disk.target.Some? { StepKeepsTarget(s, m); }
    }
  }

  lemma {:induction false} RunStaysCalm(s: State, data: seq<byte>, moves: seq<Move>)
    requires Inv(s) && Agreed(s, data) && Faultless(moves)
    ensures Agreed(Run(s, moves), data)
    decreases |moves|
  {
    if moves != [] {
      StepKeepsInv(s, moves[0]);
      StepStaysCalm(s, data, moves[0]);
      RunStaysCalm(Step(s, moves[0]), data, moves[1..]);
    }
  }

  /** Same bytes, no failing call: a publisher is refused only because the file appeared between its comparison and
      its check, or because 128 names were taken; never by the link or the comparison after it. */
  lemma {:induction false} SameBytesRefusedOnlyByRace(disk: Disk, jobs: seq<Job>, data: seq<byte>, moves: seq<Move>,
                                                      i: nat)
    requires WellFormed(disk) && (disk.target.None? || Shows(disk, data)) && Faultless(moves) && i < |jobs|
    requires forall k :: 0 <= k < |jobs| ==> jobs[k].acceptIdentical && jobs[k].Data() == data
    ensures var t := Run(Begin(disk, jobs), moves);
            && |t.pubs| == |jobs|
            && (t.pubs[i].pc.Done? ==> t.pubs[i].pc.refusal in {None, Some(Visible), Some(NamesTaken)})
  {
    BeginIsInv(disk, jobs);
    RunKeepsInv(Begin(disk, jobs), moves);
    RunStaysCalm(Begin(disk, jobs), data, moves);
  }
}
