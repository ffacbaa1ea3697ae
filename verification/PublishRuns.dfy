/** Whole runs of publishers: one left alone, several with the same bytes, and what an error means for the path. */
module PublishRuns {
  import opened Machine
  import opened Publish

  // ----- one publisher's calls in a row -----

  function RunLocal(l: Local, job: Job, calls: seq<Call>): Local
    decreases |calls|
  {
    if calls == [] then l else RunLocal(StepLocal(l.disk, job, l.pc, calls[0]), job, calls[1..])
  }

  function ByOne(pid: nat, calls: seq<Call>): seq<Move> {
    if calls == [] then [] else [Move(pid, calls[0])] + ByOne(pid, calls[1..])
  }

  lemma {:induction false} RunsAlone(s: State, pid: nat, calls: seq<Call>, rest: seq<Move>)
    requires pid < |s.pubs|
    ensures var p := s.pubs[pid];
            var r := RunLocal(Local(s.disk, p.pc), p.job, calls);
            Run(s, ByOne(pid, calls) + rest) == Run(State(r.disk, s.pubs[pid := Publisher(p.job, r.pc)]), rest)
    decreases |calls|
  {
    var p := s.pubs[pid];
    if calls == [] {
      assert ByOne(pid, calls) + rest == rest && s.pubs[pid := Publisher(p.job, p.pc)] == s.pubs;
    } else {
      var moves, m := ByOne(pid, calls) + rest, Move(pid, calls[0]);
      var t, r := Step(s, m), RunLocal(Local(s.disk, p.pc), p.job, calls);
      assert moves[0] == m && moves[1..] == ByOne(pid, calls[1..]) + rest;
      RunsAlone(t, pid, calls[1..], rest);
      assert t.pubs[pid := Publisher(p.job, r.pc)] == s.pubs[pid := Publisher(p.job, r.pc)];
    }
  }

  lemma {:induction false} RunLocalAppend(l: Local, job: Job, a: seq<Call>, b: seq<Call>)
    ensures RunLocal(l, job, a + b) == RunLocal(RunLocal(l, job, a), job, b)
    decreases |a|
  {
    hide StepLocal;
    if a == [] {
      assert a + b == b;
    } else {
      assert (a + b)[1..] == a[1..] + b;
      RunLocalAppend(StepLocal(l.disk, job, l.pc, a[0]), job, a[1..], b);
    }
  }

  lemma {:induction false} DoneStays(l: Local, job: Job, calls: seq<Call>)
    requires l.pc.Done?
    ensures RunLocal(l, job, calls) == l
    decreases |calls|
  {
    if calls != [] { DoneStays(l, job, calls[1..]); }
  }

  lemma {:induction false} Then(l: Local, job: Job, calls: seq<Call>, r: Local)
    requires calls != [] && StepLocal(l.disk, job, l.pc, calls[0]) == r
    ensures RunLocal(l, job, calls) == RunLocal(r, job, calls[1..])
  {
  }

  predicate Quiet(calls: seq<Call>) { forall k :: 0 <= k < |calls| ==> !calls[k].fails }

  // ----- a publisher left alone -----

  /** The disk after a publisher has had it for itself. */
  function Published(d: Disk, job: Job): Disk {
    Disk(d.content[d.next := job.Data()], Some(File(d.next)), d.temps, d.next + 1)
  }

  /** The bytes are written in however many pieces, the file is linked, and its temporary name goes. */
  lemma {:induction false} WritingFinishes(e: Disk, job: Job, h: Hold, w: nat, calls: seq<Call>)
    requires e.target.None? && h.name in e.temps && e.temps[h.name] == h.inode && h.inode in e.content
    requires w <= |job.Data()| && e.content[h.inode] == job.Data()[..w]
    requires Quiet(calls) && |calls| >= |job.Data()| - w + 3
    ensures RunLocal(Local(e, Writing(h, w)), job, calls) ==
            Local(Disk(e.content[h.inode := job.Data()], Some(File(h.inode)), e.temps - {h.name}, e.next),
                  Done(None, Some(h), false))
    decreases |job.Data()| - w
  {
    var data, l := job.Data(), Local(e, Writing(h, w));
    hide RunLocal;
    if w == |data| {
      assert data[..w] == data && e.content[h.inode := data] == e.content;
      Then(l, job, calls, Local(e, Linking(h)));
      var f := e.(target := Some(File(h.inode)));
      Then(Local(e, Linking(h)), job, calls[1..], Local(f, Removing(h)));
      var done := Local(f.(temps := f.temps - {h.name}), Done(None, Some(h), false));
      Then(Local(f, Removing(h)), job, calls[1..][1..], done);
      DoneStays(done, job, calls[1..][1..][1..]);
    } else {
      var n := Min(Max(calls[0].n, 1), |data| - w);
      var f := e.(content := e.content[h.inode := data[..w] + data[w..w + n]]);
      assert data[..w] + data[w..w + n] == data[..w + n];
      Then(l, job, calls, Local(f, Writing(h, w + n)));
      WritingFinishes(f, job, h, w + n, calls[1..]);
      assert f.content[h.inode := data] == e.content[h.inode := data];
    }
  }

  /** The first `n` names drawn are all taken. */
  predicate AllTaken(d: Disk, calls: seq<Call>, n: nat)
    requires n <= |calls|
  {
    forall k :: 0 <= k < n ==> calls[k].n in d.temps
  }

  ghost predicate Outcome(r: Local, d: Disk, job: Job, taken: bool) {
    if taken then r == Local(d, Done(Some(NamesTaken), None, false))
    else r.disk == Published(d, job) && Finished(r.pc) && r.pc.mine.Some? && r.pc.mine.value.inode == d.next
  }

  predicate Finished(pc: Pc) { pc.Done? && pc.refusal.None? && !pc.left }

  lemma {:induction false} CreatingFinishes(d: Disk, job: Job, attempt: nat, calls: seq<Call>)
    requires WellFormed(d) && d.target.None? && attempt <= MAX_ATTEMPTS
    requires Quiet(calls) && |calls| >= MAX_ATTEMPTS - attempt + |job.Data()| + 4
    ensures Outcome(RunLocal(Local(d, Creating(attempt)), job, calls), d, job,
                    AllTaken(d, calls, MAX_ATTEMPTS - attempt))
    decreases MAX_ATTEMPTS - attempt
  {
    hide RunLocal;
    var l, left := Local(d, Creating(attempt)), MAX_ATTEMPTS - attempt;
    if left == 0 {
      var done := Local(d, Done(Some(NamesTaken), None, false));
      Then(l, job, calls, done);
      DoneStays(done, job, calls[1..]);
    } else if calls[0].n in d.temps {
      Then(l, job, calls, Local(d, Creating(attempt + 1)));
      CreatingFinishes(d, job, attempt + 1, calls[1..]);
      TakenStep(d, calls, left);
    } else {
      var name := calls[0].n;
      var h := Hold(name, d.next);
      var e := Disk(d.content[d.next := []], None, d.temps[name := d.next], d.next + 1);
      Then(l, job, calls, Local(e, Writing(h, 0)));
      WritingFinishes(e, job, h, 0, calls[1..]);
      assert e.content[d.next := job.Data()] == d.content[d.next := job.Data()];
      assert e.temps - {name} == d.temps;
    }
  }

  lemma {:induction false} TakenStep(d: Disk, calls: seq<Call>, n: nat)
    requires 0 < n <= |calls|
    ensures AllTaken(d, calls, n) <==> calls[0].n in d.temps && AllTaken(d, calls[1..], n - 1)
  {
    if calls[0].n in d.temps && AllTaken(d, calls[1..], n - 1) {
      forall k | 0 <= k < n ensures calls[k].n in d.temps { if k > 0 { assert calls[k] == calls[1..][k - 1]; } }
    }
  }

  /** Calls before the first name is drawn: the check, and for some the comparison before it. */
  function Preliminary(job: Job): nat { if job.acceptIdentical then 2 else 1 }

  /** Enough calls for any publisher of this job to finish. */
  function Enough(job: Job): nat { Preliminary(job) + 128 + |job.Data()| + 4 }

  /** A publisher that nothing disturbs always finishes, whatever its writes take and whatever names it draws. It fails
      exactly when the first 128 names are all taken, and then has changed nothing; else the path shows its bytes and
      the temporary names are as they were. */
  lemma {:induction false} AloneSucceeds(d: Disk, job: Job, calls: seq<Call>)
    requires WellFormed(d) && d.target.None? && Quiet(calls) && |calls| >= Enough(job)
    ensures Outcome(RunLocal(Local(d, Start(job).pc), job, calls), d, job,
                    AllTaken(d, calls[Preliminary(job)..], 128))
  {
    hide RunLocal, Outcome, AllTaken;
    var rest := calls;
    if job.acceptIdentical {
      Then(Local(d, Opening(None)), job, calls, Local(d, Checking));
      rest := calls[1..];
    }
    Then(Local(d, Checking), job, rest, Local(d, Creating(0)));
    assert rest[1..] == calls[Preliminary(job)..];
    CreatingFinishes(d, job, 0, rest[1..]);
  }

  function Repeat(c: Call, n: nat): (r: seq<Call>)
    ensures |r| == n && forall k :: 0 <= k < n ==> r[k] == c
  {
    if n == 0 then [] else [c] + Repeat(c, n - 1)
  }

  /** However early it finishes: no refusal but for taken names. */
  lemma {:induction false} AloneRefusedOnlyByNames(d: Disk, job: Job, calls: seq<Call>)
    requires WellFormed(d) && d.target.None? && Quiet(calls)
    ensures var r := RunLocal(Local(d, Start(job).pc), job, calls);
            r.pc.Done? ==> && r.pc.refusal in {None, Some(NamesTaken)}
                           && (r.pc.refusal.None? ==> Shows(r.disk, job.Data()))
  {
    hide RunLocal, AllTaken;
    var start, more := Local(d, Start(job).pc), Repeat(Call(false, 0), Enough(job));
    var r := RunLocal(start, job, calls);
    RunLocalAppend(start, job, calls, more);
    if r.pc.Done? {
      DoneStays(r, job, more);
      assert Quiet(calls + more);
      AloneSucceeds(d, job, calls + more);
    }
  }

  lemma {:induction false} FreshName(names: set<Name>) returns (n: Name)
    ensures n !in names
  {
    n := Above(names);
  }

  /** A name above all of a set. */
  lemma {:induction false} Above(names: set<Name>) returns (n: Name)
    ensures forall x :: x in names ==> x < n
    decreases |names|
  {
    if names == {} {
      n := 0;
    } else {
      var x :| x in names;
      var m := Above(names - {x});
      n := Max(m, x + 1);
      forall y | y in names ensures y < n { if y != x { assert y in names - {x}; } }
    }
  }

  // ----- publishers of the same bytes -----

  /** Publisher `i` is refused because it saw something at the path. */
  predicate RefusedAsVisible(disk: Disk, jobs: seq<Job>, moves: seq<Move>, i: nat) {
    var t := Run(Begin(disk, jobs), moves);
    i < |t.pubs| && t.pubs[i].pc.Done? && t.pubs[i].pc.refusal == Some(Visible)
  }

  ghost predicate AllBring(jobs: seq<Job>, data: seq<byte>) {
    forall k :: 0 <= k < |jobs| ==> jobs[k].acceptIdentical && jobs[k].Data() == data
  }

  /** Comparing, or done after it. */
  predicate OnlyCompares(pc: Pc) {
    (pc.Opening? && pc.hold.None?) || (pc.Comparing? && pc.hold.None?) || pc == Done(None, None, false)
  }

  ghost predicate Settled(s: State, data: seq<byte>) {
    && Shows(s.disk, data)
    && forall i :: 0 <= i < |s.pubs| ==>
         s.pubs[i].job.acceptIdentical && s.pubs[i].job.Data() == data && OnlyCompares(s.pubs[i].pc)
  }

  lemma {:induction false} StepStaysSettled(s: State, data: seq<byte>, m: Move)
    requires Inv(s) && Settled(s, data) && !m.call.fails
    ensures Settled(Step(s, m), data)
  {
    if m.pid < |s.pubs| {
      var p := s.pubs[m.pid];
      StepKeepsTarget(s, m);
      if p.pc.Comparing? { EqualCompares(s.disk, p, m.call); }
    }
  }

  lemma {:induction false} RunStaysSettled(s: State, data: seq<byte>, moves: seq<Move>)
    requires Inv(s) && Settled(s, data) && Faultless(moves)
    ensures Settled(Run(s, moves), data)
    decreases |moves|
  {
    if moves != [] {
      StepKeepsInv(s, moves[0]);
      StepStaysSettled(s, data, moves[0]);
      RunStaysSettled(Step(s, moves[0]), data, moves[1..]);
    }
  }

  /** When the path already shows the bytes, every publisher of them that finishes has succeeded, without a temporary
      file. */
  lemma {:induction false} ExistingIsAccepted(disk: Disk, jobs: seq<Job>, data: seq<byte>, moves: seq<Move>, i: nat)
    requires WellFormed(disk) && Shows(disk, data) && AllBring(jobs, data) && Faultless(moves) && i < |jobs|
    ensures var t := Run(Begin(disk, jobs), moves);
            |t.pubs| == |jobs| && (t.pubs[i].pc.Done? ==> t.pubs[i].pc == Done(None, None, false))
  {
    BeginIsInv(disk, jobs);
    RunKeepsInv(Begin(disk, jobs), moves);
    RunStaysSettled(Begin(disk, jobs), data, moves);
  }

  /** Before its link a lone publisher finds nothing at the path, so it never compares and is never refused for it. */
  predicate Undisturbed(d: Disk, pc: Pc) {
    match pc
    case Opening(hold) => hold.None? && d.target.None?
    case Comparing(_, _, _, _) => false
    case Checking => d.target.None?
    case Creating(_) => d.target.None?
    case Writing(_, _) => d.target.None?
    case Linking(_) => d.target.None?
    case Removing(_) => true
    case Cleaning(_, _) => false
    case Done(refusal, _, _) => refusal != Some(Visible)
  }

  ghost predicate Lone(s: State) {
    |s.pubs| <= 1 && forall i :: 0 <= i < |s.pubs| ==> Undisturbed(s.disk, s.pubs[i].pc)
  }

  lemma {:induction false} RunStaysLone(s: State, moves: seq<Move>)
    requires Inv(s) && Lone(s) && Faultless(moves)
    ensures Lone(Run(s, moves))
    decreases |moves|
  {
    if moves != [] {
      StepKeepsInv(s, moves[0]);
      StepStaysLone(s, moves[0]);
      RunStaysLone(Step(s, moves[0]), moves[1..]);
    }
  }

  lemma {:induction false} StepStaysLone(s: State, m: Move)
    requires Inv(s) && Lone(s) && !m.call.fails
    ensures Lone(Step(s, m))
  {
  }

  lemma {:induction false} RunFirst(s: State, m: Move, rest: seq<Move>)
    ensures Run(s, [m] + rest) == Run(Step(s, m), rest)
  {
    assert ([m] + rest)[1..] == rest;
  }

  lemma {:induction false} ByOneIsFaultless(pid: nat, calls: seq<Call>)
    requires Quiet(calls)
    ensures Faultless(ByOne(pid, calls))
    decreases |calls|
  {
    if calls != [] { ByOneIsFaultless(pid, calls[1..]); }
  }

  /** The race, for any two of any publishers on an empty path, the first of which compares before it checks: it opens
      and finds nothing; the other publishes; the first checks and is refused, whatever the bytes of the two. */
  lemma {:induction false} SameBytesMayBeRefused(d: Disk, jobs: seq<Job>, i: nat, j: nat) returns (moves: seq<Move>)
    requires WellFormed(d) && d.target.None? && i < |jobs| && j < |jobs| && i != j && jobs[i].acceptIdentical
    ensures Faultless(moves) && RefusedAsVisible(d, jobs, moves, i)
    ensures var t := Run(Begin(d, jobs), moves); |t.pubs| == |jobs| && Succeeded(t.pubs[j])
  {
    hide RunLocal, Run;
    var name := FreshName(d.temps.Keys);
    var ok := Call(false, name);
    var calls := Repeat(ok, Enough(jobs[j]));
    var last := [Move(i, ok)];
    moves := [Move(i, ok)] + (ByOne(j, calls) + last);
    ByOneIsFaultless(j, calls);
    var s := Begin(d, jobs);
    var t := State(d, s.pubs[i := Publisher(jobs[i], Checking)]);
    RunFirst(s, Move(i, ok), ByOne(j, calls) + last);
    RunsAlone(t, j, calls, last);
    AloneSucceeds(d, jobs[j], calls);
    assert calls[Preliminary(jobs[j])..][0] == ok;
    var r := RunLocal(Local(d, Start(jobs[j]).pc), jobs[j], calls);
    var u := State(r.disk, t.pubs[j := Publisher(jobs[j], r.pc)]);
    assert last == [Move(i, ok)] + [];
    RunFirst(u, Move(i, ok), []);
    NoMoves(Step(u, Move(i, ok)));
  }

  lemma {:induction false} NoMoves(s: State)
    ensures Run(s, []) == s
  {
  }

  /** Publishers of the same bytes that accept an identical file, on a path that is empty or has these bytes, with
      nothing failing: none is ever refused for what it sees at the path if and only if the path has the bytes already
      or there is at most one of them. */
  lemma {:induction false} SameBytesNeverRefusedIff(disk: Disk, jobs: seq<Job>, data: seq<byte>)
    requires WellFormed(disk) && (disk.target.None? || Shows(disk, data)) && AllBring(jobs, data)
    ensures (forall moves: seq<Move>, i: nat :: Faultless(moves) ==> !RefusedAsVisible(disk, jobs, moves, i)) <==>
            Shows(disk, data) || |jobs| <= 1
  {
    hide Run;
    BeginIsInv(disk, jobs);
    if Shows(disk, data) {
      forall moves: seq<Move>, i: nat | Faultless(moves) ensures !RefusedAsVisible(disk, jobs, moves, i) {
        RunKeepsInv(Begin(disk, jobs), moves);
        if i < |jobs| { ExistingIsAccepted(disk, jobs, data, moves, i); }
      }
    } else if |jobs| <= 1 {
      forall moves: seq<Move>, i: nat | Faultless(moves) ensures !RefusedAsVisible(disk, jobs, moves, i) {
        RunStaysLone(Begin(disk, jobs), moves);
      }
    } else {
      var moves := SameBytesMayBeRefused(disk, jobs, 0, 1);
      assert Faultless(moves) && RefusedAsVisible(disk, jobs, moves, 0);
    }
  }

  // ----- what an error means for the path -----

  /** What a publisher's own calls have done: its link put its file at the path; its first removal failed. */
  datatype Seen = Seen(linked: bool, removalFailed: bool)

  /** What one move adds to what publisher `i` has done. */
  function Noticed(s: State, m: Move, i: nat, seen: Seen): Seen {
    if m.pid != i || i >= |s.pubs| then seen else
      var pc := s.pubs[i].pc;
      Seen(seen.linked || (pc.Linking? && !m.call.fails && pc.temp.name in s.disk.temps && s.disk.target.None?),
           seen.removalFailed || (pc.Removing? && m.call.fails))
  }

  function Watch(s: State, moves: seq<Move>, i: nat, seen: Seen): Seen
    decreases |moves|
  {
    if moves == [] then seen else Watch(Step(s, moves[0]), moves[1..], i, Noticed(s, moves[0], i, seen))
  }

  /** What was seen of a publisher is told by where it is and by what is at the path. */
  ghost predicate Told(d: Disk, p: Publisher, seen: Seen) {
    && (seen.linked <==> Own(p.pc).Some? && d.target == Some(File(Own(p.pc).value.inode)))
    && (seen.removalFailed ==> Shows(d, p.job.Data()) && (p.pc.Cleaning? || (p.pc.Done? && p.pc.refusal.Some?)))
    && (seen.linked && (p.pc.Cleaning? || (p.pc.Done? && p.pc.refusal.Some?)) ==> seen.removalFailed)
    && (seen.linked ==> p.pc.Removing? || p.pc.Cleaning? || p.pc.Done?)
    && (seen.removalFailed && !p.job.acceptIdentical ==> seen.linked)
  }

  lemma {:induction false} OwnStepTold(s: State, m: Move, seen: Seen)
    requires Inv(s) && m.pid < |s.pubs| && Told(s.disk, s.pubs[m.pid], seen)
    ensures Told(Step(s, m).disk, Step(s, m).pubs[m.pid], Noticed(s, m, m.pid, seen))
  {
    hide Flatten;
    var p := s.pubs[m.pid];
    StaysGood(s.disk, p, m.call);
    OwnStays(s.disk, p, m.call);
    if seen.removalFailed { ShowsLasts(s.disk, Step(s, m).disk, Holding(p.pc), p.job.Data()); }
  }

  lemma {:induction false} OtherStepTold(s: State, m: Move, i: nat, seen: Seen)
    requires Inv(s) && m.pid < |s.pubs| && i < |s.pubs| && i != m.pid && Told(s.disk, s.pubs[i], seen)
    ensures Told(Step(s, m).disk, s.pubs[i], seen)
  {
    hide StepLocal, Flatten;
    var p, q := s.pubs[m.pid], s.pubs[i];
    assert Apart(p.pc, q.pc);
    StaysGood(s.disk, p, m.call);
    HoldingIsOwn(p.pc);
    if seen.removalFailed { ShowsLasts(s.disk, Step(s, m).disk, Holding(p.pc), q.job.Data()); }
  }

  lemma {:induction false} RunTold(s: State, moves: seq<Move>, i: nat, seen: Seen)
    requires Inv(s) && i < |s.pubs| && Told(s.disk, s.pubs[i], seen)
    ensures var t := Run(s, moves); |t.pubs| == |s.pubs| && Told(t.disk, t.pubs[i], Watch(s, moves, i, seen))
    decreases |moves|
  {
    hide Told;
    if moves != [] {
      var m := moves[0];
      StepKeepsInv(s, m);
      if m.pid == i { OwnStepTold(s, m, seen); } else if m.pid < |s.pubs| { OtherStepTold(s, m, i, seen); }
      RunTold(Step(s, m), moves[1..], i, Noticed(s, m, i, seen));
    }
  }

  lemma {:induction false} NothingSeenYet(d: Disk, job: Job)
    ensures Told(d, Start(job), Seen(false, false))
  {
  }

  /** A publisher that reports an error after it had a temporary file: its own file is at the path exactly when its link
      put it there and the removal after it failed. Whenever that removal failed its bytes are at the path; and one that
      accepts no file but its own has its file there exactly when that removal failed. */
  lemma {:induction false} ErrorAfterPublicationIff(disk: Disk, jobs: seq<Job>, moves: seq<Move>, i: nat)
    requires WellFormed(disk) && i < |jobs|
    ensures var t, seen := Run(Begin(disk, jobs), moves), Watch(Begin(disk, jobs), moves, i, Seen(false, false));
            && |t.pubs| == |jobs|
            && (t.pubs[i].pc.Done? && t.pubs[i].pc.refusal.Some? && t.pubs[i].pc.mine.Some? ==>
                  var own := Some(File(t.pubs[i].pc.mine.value.inode));
                  && (t.disk.target == own <==> seen.linked && seen.removalFailed)
                  && (!jobs[i].acceptIdentical ==> (t.disk.target == own <==> seen.removalFailed))
                  && (seen.removalFailed ==> Shows(t.disk, jobs[i].Data())))
  {
    var s := Begin(disk, jobs);
    BeginIsInv(disk, jobs);
    NothingSeenYet(disk, jobs[i]);
    RunTold(s, moves, i, Seen(false, false));
    RunKeepsInv(s, moves);
  }

  /** Such errors happen to every publisher: its last call but one fails, and its bytes are at the path. */
  lemma {:induction false} ErrorAfterPublication(d: Disk, job: Job, h: Hold)
    requires Good(d, Publisher(job, Removing(h)))
    ensures var r := RunLocal(Local(d, Removing(h)), job, [Call(true, 0), Call(false, 0)]);
            r.pc == Done(Some(Io), Some(h), false) && r.disk.target == d.target && Shows(r.disk, job.Data())
  {
    var calls := [Call(true, 0), Call(false, 0)];
    Then(Local(d, Removing(h)), job, calls, Local(d, Cleaning(h, Io)));
    var done := Local(d.(temps := d.temps - {h.name}), Done(Some(Io), Some(h), false));
    assert calls[1..] == [Call(false, 0)] && calls[1..][1..] == [];
    Then(Local(d, Cleaning(h, Io)), job, calls[1..], done);
  }

  /** The calls that take a publisher, left alone, to its link. */
  function UpToLink(job: Job, name: Name): seq<Call> {
    Repeat(Call(false, name), Preliminary(job)) +
    ([Call(false, name)] + (if job.Data() == [] then [] else [Call(false, |job.Data()|)]) + [Call(false, 0)])
  }

  /** The disk when a publisher has written its file but not linked it. */
  function Unlinked(d: Disk, job: Job, name: Name): Disk {
    Disk(d.content[d.next := job.Data()], None, d.temps[name := d.next], d.next + 1)
  }

  lemma {:induction false} LinkIsReached(d: Disk, job: Job, name: Name)
    requires WellFormed(d) && d.target.None? && name !in d.temps
    ensures RunLocal(Local(d, Start(job).pc), job, UpToLink(job, name)) ==
            Local(Unlinked(d, job, name), Linking(Hold(name, d.next)))
  {
    hide RunLocal;
    var h, data, ok := Hold(name, d.next), job.Data(), Call(false, name);
    var create := [ok];
    var write := if data == [] then [] else [Call(false, |data|)];
    var close := [Call(false, 0)];
    var start, e := Local(d, Start(job).pc), Disk(d.content[d.next := []], None, d.temps[name := d.next], d.next + 1);
    var f := Unlinked(d, job, name);
    RunLocalAppend(start, job, Repeat(ok, Preliminary(job)), create + write + close);
    PreliminaryRuns(d, job, ok);
    Regroup(create, write, close);
    RunLocalAppend(Local(d, Creating(0)), job, create, write + close);
    OneCall(Local(d, Creating(0)), job, ok, Local(e, Writing(h, 0)));
    RunLocalAppend(Local(e, Writing(h, 0)), job, write, close);
    WholeWrite(d, e, f, job, h);
    assert data[|data|..] == [] && data + [] == data;
    OneCall(Local(f, Writing(h, |data|)), job, Call(false, 0), Local(f, Linking(h)));
  }

  /** The calls that take a publisher, left alone, to the removal of its temporary file. */
  function UpToRemoval(job: Job, name: Name): seq<Call> { UpToLink(job, name) + [Call(false, 0)] }

  lemma {:induction false} RemovalIsReached(d: Disk, job: Job, name: Name)
    requires WellFormed(d) && d.target.None? && name !in d.temps
    ensures RunLocal(Local(d, Start(job).pc), job, UpToRemoval(job, name)) ==
            Local(Published(d, job).(temps := d.temps[name := d.next]), Removing(Hold(name, d.next)))
  {
    hide RunLocal, UpToLink;
    var h, f := Hold(name, d.next), Unlinked(d, job, name);
    LinkIsReached(d, job, name);
    RunLocalAppend(Local(d, Start(job).pc), job, UpToLink(job, name), [Call(false, 0)]);
    OneCall(Local(f, Linking(h)), job, Call(false, 0), Local(f.(target := Some(File(d.next))), Removing(h)));
  }

  lemma {:induction false} OneCall(l: Local, job: Job, c: Call, r: Local)
    requires StepLocal(l.disk, job, l.pc, c) == r
    ensures RunLocal(l, job, [c]) == r
  {
    assert [c][1..] == [];
  }

  lemma {:induction false} PreliminaryRuns(d: Disk, job: Job, ok: Call)
    requires d.target.None? && !ok.fails
    ensures RunLocal(Local(d, Start(job).pc), job, Repeat(ok, Preliminary(job))) == Local(d, Creating(0))
  {
    hide RunLocal;
    OneCall(Local(d, Checking), job, ok, Local(d, Creating(0)));
    if job.acceptIdentical {
      assert Repeat(ok, 2) == [ok] + [ok];
      RunLocalAppend(Local(d, Opening(None)), job, [ok], [ok]);
      OneCall(Local(d, Opening(None)), job, ok, Local(d, Checking));
    } else {
      assert Repeat(ok, 1) == [ok];
    }
  }

  lemma {:induction false} WholeWrite(d: Disk, e: Disk, f: Disk, job: Job, h: Hold)
    requires e.content == d.content[h.inode := []] && f == e.(content := d.content[h.inode := job.Data()])
    ensures RunLocal(Local(e, Writing(h, 0)), job, if job.Data() == [] then [] else [Call(false, |job.Data()|)]) ==
            Local(f, Writing(h, |job.Data()|))
  {
    var data := job.Data();
    if data == [] {
      assert f == e;
    } else {
      assert [] + data[0..|data|] == data && e.content[h.inode := data] == d.content[h.inode := data];
      OneCall(Local(e, Writing(h, 0)), job, Call(false, |data|), Local(f, Writing(h, |data|)));
    }
  }

  /** Such a run exists for every job on an empty path: the publisher reports an error and leaves no temporary file, and
      the path shows its bytes. */
  lemma {:induction false} ErrorAfterPublicationHappens(d: Disk, job: Job) returns (calls: seq<Call>)
    requires WellFormed(d) && d.target.None?
    ensures var r := RunLocal(Local(d, Start(job).pc), job, calls);
            && r.pc.Done? && r.pc.refusal == Some(Io) && r.pc.mine.Some? && !r.pc.left
            && r.disk.target == Some(File(r.pc.mine.value.inode)) && Shows(r.disk, job.Data()) &&
               r.disk.temps == d.temps
  {
    hide RunLocal;
    var name := FreshName(d.temps.Keys);
    var h, e := Hold(name, d.next), Published(d, job).(temps := d.temps[name := d.next]);
    RemovalIsReached(d, job, name);
    ErrorAfterPublication(e, job, h);
    calls := UpToRemoval(job, name) + [Call(true, 0), Call(false, 0)];
    RunLocalAppend(Local(d, Start(job).pc), job, UpToRemoval(job, name), [Call(true, 0), Call(false, 0)]);
    TwoCalls(e, job, h);
    assert e.temps - {name} == d.temps;
  }

  lemma {:induction false} TwoCalls(d: Disk, job: Job, h: Hold)
    ensures RunLocal(Local(d, Removing(h)), job, [Call(true, 0), Call(false, 0)]) ==
            Local(d.(temps := d.temps - {h.name}), Done(Some(Io), Some(h), false))
  {
    var calls := [Call(true, 0), Call(false, 0)];
    assert calls[1..] == [Call(false, 0)] && calls[1..][1..] == [];
  }

  /** A comparison with a file of the same bytes goes through its chunks and finds them the same. */
  lemma {:induction false} ComparesEqual(d: Disk, job: Job, hold: Option<Hold>, file: Inode, offset: nat,
                                         rest: seq<seq<byte>>, ok: Call)
    requires file in d.content && offset <= |d.content[file]| && Flatten(rest) == d.content[file][offset..] && !ok.fails
    ensures RunLocal(Local(d, Comparing(hold, file, offset, rest)), job, Repeat(ok, |rest| + 1)) == Local(d, Same(hold))
    decreases |rest|
  {
    hide RunLocal;
    var l, bytes, calls := Local(d, Comparing(hold, file, offset, rest)), d.content[file], Repeat(ok, |rest| + 1);
    if rest == [] {
      assert |bytes[offset..]| == 0 && calls == [ok];
      OneCall(l, job, ok, Local(d, Same(hold)));
    } else {
      var chunk, tail := rest[0], rest[1..];
      assert bytes[offset..] == chunk + Flatten(tail);
      assert bytes[offset..][..|chunk|] == bytes[offset..offset + |chunk|];
      assert bytes[offset..][|chunk|..] == bytes[offset + |chunk|..];
      Then(l, job, calls, Local(d, Comparing(hold, file, offset + |chunk|, tail)));
      ComparesEqual(d, job, hold, file, offset + |chunk|, tail, ok);
    }
  }

  /** The calls of a publisher that loses its link to the same bytes and then cannot remove its temporary file. */
  function AfterLostLink(job: Job, ok: Call): seq<Call> {
    [ok, ok] + (Repeat(ok, |ChunkList(job.parts)| + 1) + [Call(true, 0), Call(false, 0)])
  }

  lemma {:induction false} FromLostLink(d: Disk, job: Job, ok: Call, h: Hold)
    requires job.acceptIdentical && Shows(d, job.Data()) && h.name in d.temps && !ok.fails
    ensures RunLocal(Local(d, Linking(h)), job, AfterLostLink(job, ok)) ==
            Local(d.(temps := d.temps - {h.name}), Done(Some(Io), Some(h), false))
  {
    hide RunLocal;
    var file, chunks := d.target.value.inode, ChunkList(job.parts);
    var compare, remove := Repeat(ok, |chunks| + 1), [Call(true, 0), Call(false, 0)];
    var begun := Local(d, Comparing(Some(h), file, 0, chunks));
    assert [ok, ok] == [ok] + [ok];
    RunLocalAppend(Local(d, Linking(h)), job, [ok, ok], compare + remove);
    RunLocalAppend(Local(d, Linking(h)), job, [ok], [ok]);
    OneCall(Local(d, Linking(h)), job, ok, Local(d, Opening(Some(h))));
    OneCall(Local(d, Opening(Some(h))), job, ok, begun);
    RunLocalAppend(begun, job, compare, remove);
    assert d.content[file][0..] == d.content[file];
    ComparesEqual(d, job, Some(h), file, 0, chunks, ok);
    TwoCalls(d, job, h);
  }

  /** One that accepts an identical file can fail in the same way without its file being there, whatever the bytes: it
      lost the link to a publisher of the same bytes, and then could not remove its temporary file. */
  lemma {:induction false} LoserMayFailToRemove(d: Disk, loser: Job, winner: Job) returns (moves: seq<Move>)
    requires WellFormed(d) && d.target.None? && loser.acceptIdentical && winner.Data() == loser.Data()
    ensures var t := Run(Begin(d, [loser, winner]), moves);
            && |t.pubs| == 2 && Succeeded(t.pubs[1]) && Shows(t.disk, loser.Data())
            && t.pubs[0].pc.Done? && t.pubs[0].pc.refusal == Some(Io) && !t.pubs[0].pc.left
            && t.pubs[0].pc.mine.Some? && t.disk.target != Some(File(t.pubs[0].pc.mine.value.inode))
  {
    hide RunLocal, Run, UpToLink, AfterLostLink;
    var name := FreshName(d.temps.Keys);
    var h, s, e := Hold(name, d.next), Begin(d, [loser, winner]), Unlinked(d, loser, name);
    var first := UpToLink(loser, name);
    LinkIsReached(d, loser, name);
    var other := FreshName(e.temps.Keys);
    var ok := Call(false, other);
    var second, third := Repeat(ok, Enough(winner)), AfterLostLink(loser, ok);
    AloneSucceeds(e, winner, second);
    assert second[Preliminary(winner)..][0] == ok;
    var r := RunLocal(Local(e, Start(winner).pc), winner, second);
    FromLostLink(r.disk, loser, ok, h);
    var tail := ByOne(1, second) + (ByOne(0, third) + []);
    moves := ByOne(0, first) + tail;
    RunsAlone(s, 0, first, tail);
    var u := State(e, s.pubs[0 := Publisher(loser, Linking(h))]);
    RunsAlone(u, 1, second, ByOne(0, third) + []);
    var v := State(r.disk, u.pubs[1 := Publisher(winner, r.pc)]);
    RunsAlone(v, 0, third, []);
    NoMoves(State(RunLocal(Local(v.disk, Linking(h)), loser, third).disk,
                  v.pubs[0 := Publisher(loser, Done(Some(Io), Some(h), false))]));
  }
}
