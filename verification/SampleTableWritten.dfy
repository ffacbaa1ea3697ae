/** Sample table boxes as an encoder writes them, and that parsing gives the table back. */
module SampleTableWritten {
  import opened Machine
  import opened SampleTable
  import opened SampleTableBoxes

  // ----- words of four bytes, highest byte first -----

  function Put32(x: nat): (b: seq<byte>)
    requires x <= U32_MAX
    ensures |b| == 4
  {
    [x / 0x100_0000, x / 0x1_0000 % 256, x / 0x100 % 256, x % 256]
  }

  predicate AreWords(ws: seq<nat>) { forall k :: 0 <= k < |ws| ==> ws[k] <= U32_MAX }

  function Words(ws: seq<nat>): (b: seq<byte>)
    requires AreWords(ws)
    ensures |b| == 4 * |ws|
  {
    if ws == [] then [] else
      assert forall k :: 0 <= k < |ws[1..]| ==> ws[1..][k] == ws[k + 1];
      Put32(ws[0]) + Words(ws[1..])
  }

  lemma {:induction false} Get32(before: seq<byte>, x: nat, after: seq<byte>)
    requires x <= U32_MAX
    ensures Be32(before + Put32(x) + after, |before|) == x
  {
    hide Put32;
    var b, p, at := before + Put32(x) + after, Put32(x), |before|;
    assert b[at] == p[0] && b[at + 1] == p[1] && b[at + 2] == p[2] && b[at + 3] == p[3];
    PutParts(x);
  }

  lemma {:induction false} PutParts(x: nat)
    requires x <= U32_MAX
    ensures var p := Put32(x);
            x == p[0] as int * 0x100_0000 + p[1] as int * 0x1_0000 + p[2] as int * 0x100 + p[3] as int
  {
    var a, b := x / 0x100, x / 0x1_0000;
    assert x == a * 0x100 + x % 256 && a == b * 0x100 + a % 256 && b == b / 0x100 * 0x100 + b % 256;
    assert b / 0x100 == x / 0x100_0000;
  }

  lemma {:induction false} WordReads(before: seq<byte>, ws: seq<nat>, k: nat)
    requires AreWords(ws) && k < |ws|
    ensures Be32(before + Words(ws), |before| + 4 * k) == ws[k]
    decreases k
  {
    hide Be32, Put32;
    assert forall i :: 0 <= i < |ws[1..]| ==> ws[1..][i] == ws[i + 1];
    assert before + Words(ws) == before + Put32(ws[0]) + Words(ws[1..]);
    if k > 0 {
      WordReads(before + Put32(ws[0]), ws[1..], k - 1);
    } else {
      Get32(before, ws[0], Words(ws[1..]));
    }
  }

  /** Version and flags, a count, and words. */
  function FullBox(version: byte, count: nat, ws: seq<nat>): (b: seq<byte>)
    requires count <= U32_MAX && AreWords(ws)
    ensures |b| == 8 + 4 * |ws| && b[0] == version
  {
    [version, 0, 0, 0] + Put32(count) + Words(ws)
  }

  lemma {:induction false} FullBoxReads(version: byte, count: nat, ws: seq<nat>)
    requires count <= U32_MAX && AreWords(ws)
    ensures Be32(FullBox(version, count, ws), 4) == count
    ensures forall k :: 0 <= k < |ws| ==> Be32(FullBox(version, count, ws), 8 + 4 * k) == ws[k]
  {
    hide Be32, Put32, Words;
    Get32([version, 0, 0, 0], count, Words(ws));
    forall k | 0 <= k < |ws| ensures Be32(FullBox(version, count, ws), 8 + 4 * k) == ws[k] {
      WordReads([version, 0, 0, 0] + Put32(count), ws, k);
    }
  }

  lemma {:induction false} BoxWord(version: byte, count: nat, ws: seq<nat>, k: nat)
    requires count <= U32_MAX && AreWords(ws) && k < |ws|
    ensures Be32(FullBox(version, count, ws), 8 + 4 * k) == ws[k]
  {
    FullBoxReads(version, count, ws);
  }

  // ----- run-length tables -----

  /** A row that fits: 32 bits for the count, and 32 bits, signed or not, for the value. */
  predicate RunFits(run: Run, signed: bool) {
    run.count <= U32_MAX && if signed then -0x8000_0000 <= run.value < 0x8000_0000 else 0 <= run.value <= U32_MAX
  }

  predicate RunsFit(rows: seq<Run>, signed: bool) { forall k :: 0 <= k < |rows| ==> RunFits(rows[k], signed) }

  /** A row is a count and then a value. */
  function RunWords(rows: seq<Run>, signed: bool): (ws: seq<nat>)
    requires RunsFit(rows, signed)
    ensures |ws| == 2 * |rows| && AreWords(ws)
    ensures forall k :: 0 <= k < |rows| ==>
              ws[2 * k] == rows[k].count && ws[2 * k + 1] == rows[k].value % 0x1_0000_0000
  {
    seq(2 * |rows|, i requires 0 <= i < 2 * |rows| =>
      assert RunFits(rows[i / 2], signed);
      if i % 2 == 0 then rows[i / 2].count else rows[i / 2].value % 0x1_0000_0000)
  }

  function RunBox(version: byte, rows: seq<Run>, signed: bool): seq<byte>
    requires |rows| <= U32_MAX && RunsFit(rows, signed)
  {
    FullBox(version, |rows|, RunWords(rows, signed))
  }

  /** Every row's value as often as it says. */
  function WrittenOut(rows: seq<Run>): seq<int> {
    if rows == [] then [] else WrittenOut(rows[..|rows| - 1]) + Repeated(rows[|rows| - 1].value, rows[|rows| - 1].count)
  }

  lemma {:induction false} RowReads(version: byte, rows: seq<Run>, signed: bool, k: nat)
    requires k < |rows| <= U32_MAX && RunsFit(rows, signed)
    ensures RunAt(RunBox(version, rows, signed), k, signed) == rows[k]
  {
    hide Be32, FullBox, RunWords;
    var ws := RunWords(rows, signed);
    BoxWord(version, |rows|, ws, 2 * k);
    BoxWord(version, |rows|, ws, 2 * k + 1);
    assert RunFits(rows[k], signed) && ws[2 * k] == rows[k].count;
  }

  lemma {:induction false} RowsExpand(version: byte, rows: seq<Run>, signed: bool, k: nat)
    requires k <= |rows| <= U32_MAX && RunsFit(rows, signed)
    ensures Expanded(RunBox(version, rows, signed), k, signed) == WrittenOut(rows[..k])
    decreases k
  {
    hide RunAt, RunBox;
    RunBoxLength(version, rows, signed);
    if k > 0 {
      RowsExpand(version, rows, signed, k - 1);
      RowReads(version, rows, signed, k - 1);
      assert rows[..k][..k - 1] == rows[..k - 1];
    }
  }

  lemma {:induction false} RunBoxLength(version: byte, rows: seq<Run>, signed: bool)
    requires |rows| <= U32_MAX && RunsFit(rows, signed)
    ensures |RunBox(version, rows, signed)| == 8 + 8 * |rows| && RunBox(version, rows, signed)[0] == version
    ensures Be32(RunBox(version, rows, signed), 4) == |rows|
  {
    hide Be32;
    FullBoxReads(version, |rows|, RunWords(rows, signed));
  }

  /** The limits allow a table of that many rows. */
  predicate Allowed(rows: nat, width: nat, limits: ParseLimits) {
    rows <= limits.maxTableEntries && rows * width <= limits.maxIndexBytes
  }

  lemma {:induction false} CountReads(b: seq<byte>, width: nat, rows: nat, limits: ParseLimits)
    requires |b| == 8 + rows * width && width > 0 && Be32(b, 4) == rows
    ensures EntryCount(b, 8, width, limits) == if Allowed(rows, width, limits) then Some(rows) else None
  {
    hide Be32;
    DivIs(rows * width, width, rows, 0);
  }

  /** A run-length box is read as its rows written out, when the limits allow them and they come to one value a
      sample. */
  lemma {:induction false} RunsRoundTrip(version: byte, rows: seq<Run>, signed: bool, samples: nat, limits: ParseLimits)
    requires |rows| <= U32_MAX && RunsFit(rows, signed)
    ensures RunTable(RunBox(version, rows, signed), samples, signed, limits) ==
            if Allowed(|rows|, 8, limits) && |WrittenOut(rows)| == samples then Some(WrittenOut(rows)) else None
  {
    hide Be32, RunBox, Expanded, WrittenOut, EntryCount;
    RunBoxLength(version, rows, signed);
    CountReads(RunBox(version, rows, signed), 8, |rows|, limits);
    RowsExpand(version, rows, signed, |rows|);
    assert rows[..|rows|] == rows;
  }

  // ----- sync samples -----

  /** Sync sample numbers, from one, each once. */
  predicate AreNumbers(numbers: seq<nat>, samples: nat) {
    && (forall k :: 0 <= k < |numbers| ==> 1 <= numbers[k] <= samples)
    && forall j, k :: 0 <= j < k < |numbers| ==> numbers[j] != numbers[k]
  }

  lemma {:induction false} NumbersRead(b: seq<byte>, numbers: seq<nat>, samples: nat, k: nat)
    requires |b| == 8 + 4 * |numbers| && k <= |numbers|
    requires forall i :: 0 <= i < |numbers| ==> Be32(b, 8 + 4 * i) == numbers[i]
    ensures forall s: int :: s in Named(b, k) <==> s + 1 in numbers[..k]
    ensures AreNumbers(numbers, samples) ==> SyncNumbersFit(b, k, samples)
    decreases k
  {
    hide Be32;
    if k > 0 {
      NumbersRead(b, numbers, samples, k - 1);
      assert numbers[..k] == numbers[..k - 1] + [numbers[k - 1]];
      assert SyncNumber(b, k - 1) == numbers[k - 1] by { assert Be32(b, 8 + 4 * (k - 1)) == numbers[k - 1]; }
    }
  }

  /** The sync samples are exactly the numbered ones. */
  lemma {:induction false} SyncRoundTrip(numbers: seq<nat>, samples: nat, limits: ParseLimits, marks: seq<bool>)
    requires AreNumbers(numbers, samples) && samples <= Min(limits.maxSamplesPerTrack, U32_MAX)
    requires |numbers| <= U32_MAX && AreWords(numbers) && Allowed(|numbers|, 4, limits)
    ensures var b := FullBox(0, |numbers|, numbers);
            && StssAccepts(b, samples, limits)
            && (StssGives(b, samples, limits, marks) ==>
                  |marks| == samples && forall s :: 0 <= s < samples ==> (marks[s] <==> s + 1 in numbers))
  {
    hide Be32, FullBox, EntryCount, Named, SyncNumbersFit;
    var b := FullBox(0, |numbers|, numbers);
    FullBoxReads(0, |numbers|, numbers);
    CountReads(b, 4, |numbers|, limits);
    NumbersRead(b, numbers, samples, |numbers|);
    assert numbers[..|numbers|] == numbers;
  }

  // ----- sizes, rows and chunk offsets -----

  lemma {:induction false} SizesRoundTrip(sizes: seq<u32>, limits: ParseLimits, read: seq<u32>)
    requires |sizes| <= Min(limits.maxSamplesPerTrack, U32_MAX) && AreWords([|sizes|] + sizes)
    ensures var b := FullBox(0, 0, [|sizes|] + sizes);
            StszAccepts(b, limits) && Be32(b, 8) == |sizes| && (StszGives(b, read) ==> read == sizes)
  {
    hide Be32, FullBox;
    var ws := [|sizes|] + sizes;
    var b := FullBox(0, 0, ws);
    FullBoxReads(0, 0, ws);
    assert Be32(b, 8 + 4 * 0) == ws[0];
    if StszGives(b, read) {
      forall k | 0 <= k < |sizes| ensures read[k] == sizes[k] { assert Be32(b, 8 + 4 * (k + 1)) == ws[k + 1]; }
    }
  }

  /** A row is the first chunk, the samples a chunk, and the sample description, which is not read. */
  function ChunkWords(rows: seq<SampleToChunk>): (ws: seq<nat>)
    ensures |ws| == 3 * |rows| && AreWords(ws)
    ensures forall k :: 0 <= k < |rows| ==>
              ws[3 * k] == rows[k].firstChunk && ws[3 * k + 1] == rows[k].samplesPerChunk
  {
    seq(3 * |rows|, i requires 0 <= i < 3 * |rows| =>
      if i % 3 == 0 then rows[i / 3].firstChunk else if i % 3 == 1 then rows[i / 3].samplesPerChunk else 1)
  }

  lemma {:induction false} ChunkRowsRoundTrip(rows: seq<SampleToChunk>, limits: ParseLimits, read: seq<SampleToChunk>)
    requires 1 <= |rows| <= U32_MAX && Allowed(|rows|, 12, limits)
    ensures var b := FullBox(0, |rows|, ChunkWords(rows));
            StscAccepts(b, limits) && (StscGives(b, limits, read) ==> read == rows)
  {
    hide Be32, FullBox, EntryCount, ChunkWords, StscGives;
    var ws := ChunkWords(rows);
    var b := FullBox(0, |rows|, ws);
    FullBoxCount(0, |rows|, ws);
    CountReads(b, 12, |rows|, limits);
    if StscGives(b, limits, read) { ChunkRowsRead(rows, limits, read); }
  }

  lemma {:induction false} FullBoxCount(version: byte, count: nat, ws: seq<nat>)
    requires count <= U32_MAX && AreWords(ws)
    ensures Be32(FullBox(version, count, ws), 4) == count
  {
    FullBoxReads(version, count, ws);
  }

  lemma {:induction false} ChunkRowsRead(rows: seq<SampleToChunk>, limits: ParseLimits, read: seq<SampleToChunk>)
    requires 1 <= |rows| <= U32_MAX
    requires var b := FullBox(0, |rows|, ChunkWords(rows));
             EntryCount(b, 8, 12, limits) == Some(|rows|) && StscAccepts(b, limits) && StscGives(b, limits, read)
    ensures read == rows
  {
    hide Be32, FullBox, EntryCount, ChunkWords;
    var ws := ChunkWords(rows);
    forall k | 0 <= k < |rows| ensures read[k] == rows[k] {
      BoxWord(0, |rows|, ws, 3 * k);
      BoxWord(0, |rows|, ws, 3 * k + 1);
      assert ws[3 * k] == rows[k].firstChunk;
    }
  }

  /** An offset is one word, or two with the high one first. */
  function OffsetWords(offsets: seq<u64>, wide: bool): (ws: seq<nat>)
    requires !wide ==> AreWords(offsets)
    ensures |ws| == (if wide then 2 else 1) * |offsets| && AreWords(ws)
    ensures forall k :: 0 <= k < |offsets| ==>
              if wide then ws[2 * k] == offsets[k] / 0x1_0000_0000 && ws[2 * k + 1] == offsets[k] % 0x1_0000_0000
              else ws[k] == offsets[k]
  {
    if wide then
      seq(2 * |offsets|, i requires 0 <= i < 2 * |offsets| =>
        if i % 2 == 0 then offsets[i / 2] / 0x1_0000_0000 else offsets[i / 2] % 0x1_0000_0000)
    else offsets
  }

  lemma {:induction false} OffsetsRoundTrip(offsets: seq<u64>, wide: bool, limits: ParseLimits, read: seq<u64>)
    requires (!wide ==> AreWords(offsets)) && |offsets| <= U32_MAX && Allowed(|offsets|, if wide then 8 else 4, limits)
    ensures var b := FullBox(0, |offsets|, OffsetWords(offsets, wide));
            OffsetsAccepts(b, wide, limits) && (OffsetsGives(b, wide, limits, read) ==> read == offsets)
  {
    hide Be32, FullBox, EntryCount;
    var ws := OffsetWords(offsets, wide);
    var b := FullBox(0, |offsets|, ws);
    FullBoxReads(0, |offsets|, ws);
    CountReads(b, if wide then 8 else 4, |offsets|, limits);
    if OffsetsGives(b, wide, limits, read) {
      forall k | 0 <= k < |offsets| ensures read[k] == offsets[k] {
        if wide {
          assert Be32(b, 8 + 4 * (2 * k)) == ws[2 * k] && Be32(b, 8 + 4 * (2 * k + 1)) == ws[2 * k + 1];
        } else {
          assert Be32(b, 8 + 4 * k) == ws[k];
        }
      }
    }
  }

  // ----- the table -----

  /** How an encoder chose to write a table down. */
  datatype Written = Written(
    durations: seq<Run>, offsets: seq<Run>, signedOffsets: bool, syncNumbers: seq<nat>, wideOffsets: bool)

  /** The choices say what the table says, and everything fits the boxes and the limits. */
  ghost predicate Writes(w: Written, t: Table, limits: ParseLimits) {
    var n := |t.sizes|;
    && n == |t.durations| == |t.offsets| == |t.keyframes| <= Min(limits.maxSamplesPerTrack, U32_MAX)
    && |w.durations| <= U32_MAX && RunsFit(w.durations, false) && WrittenOut(w.durations) == t.durations
    && |w.offsets| <= U32_MAX && RunsFit(w.offsets, w.signedOffsets) && WrittenOut(w.offsets) == t.offsets
    && |w.syncNumbers| <= U32_MAX && AreWords(w.syncNumbers) && AreNumbers(w.syncNumbers, n)
    && (forall s :: 0 <= s < n ==> (t.keyframes[s] <==> s + 1 in w.syncNumbers))
    && |t.chunkOffsets| <= U32_MAX && (!w.wideOffsets ==> AreWords(t.chunkOffsets))
    && 1 <= |t.sampleToChunk| <= U32_MAX && AreWords([n] + t.sizes)
    && Allowed(|w.durations|, 8, limits) && Allowed(|w.offsets|, 8, limits) && Allowed(|w.syncNumbers|, 4, limits)
    && Allowed(|t.chunkOffsets|, if w.wideOffsets then 8 else 4, limits) && Allowed(|t.sampleToChunk|, 12, limits)
  }

  function BoxesOf(w: Written, t: Table, limits: ParseLimits): Boxes
    requires Writes(w, t, limits)
  {
    var offsets := Some(FullBox(0, |t.chunkOffsets|, OffsetWords(t.chunkOffsets, w.wideOffsets)));
    Boxes(Some(FullBox(0, 0, [|t.sizes|] + t.sizes)),
          Some(RunBox(0, w.durations, false)),
          Some(RunBox(if w.signedOffsets then 1 else 0, w.offsets, w.signedOffsets)),
          Some(FullBox(0, |w.syncNumbers|, w.syncNumbers)),
          if w.wideOffsets then None else offsets, if w.wideOffsets then offsets else None,
          Some(FullBox(0, |t.sampleToChunk|, ChunkWords(t.sampleToChunk))))
  }

  lemma {:induction false} ColumnsRead(w: Written, t: Table, limits: ParseLimits)
    requires Writes(w, t, limits)
    ensures var n := |t.sizes|;
            && Stts(RunBox(0, w.durations, false), n, limits) == Some(t.durations)
            && Ctts(RunBox(if w.signedOffsets then 1 else 0, w.offsets, w.signedOffsets), n, limits) == Some(t.offsets)
  {
    hide RunBox, RunTable, WrittenOut, EntryCount;
    RunsRoundTrip(0, w.durations, false, |t.sizes|, limits);
    RunBoxLength(if w.signedOffsets then 1 else 0, w.offsets, w.signedOffsets);
    RunsRoundTrip(if w.signedOffsets then 1 else 0, w.offsets, w.signedOffsets, |t.sizes|, limits);
  }

  /** However a table is written down, its boxes are accepted, and what is read from them is the table. */
  lemma {:induction false} TableRoundTrip(w: Written, t: Table, limits: ParseLimits, read: Table)
    requires Writes(w, t, limits)
    ensures TableAccepts(BoxesOf(w, t, limits), limits)
    ensures TableGives(BoxesOf(w, t, limits), limits, read) ==> read == t
  {
    hide Be32, FullBox, RunBox, EntryCount, Stts, Ctts, StszAccepts, StszGives, StscAccepts, StscGives, OffsetsAccepts,
         OffsetsGives, StssAccepts, StssGives, OffsetWords, ChunkWords, RunsFit, WrittenOut, Allowed, AreWords,
         AreNumbers;
    SizesRoundTrip(t.sizes, limits, read.sizes);
    ColumnsRead(w, t, limits);
    SyncRoundTrip(w.syncNumbers, |t.sizes|, limits, read.keyframes);
    OffsetsRoundTrip(t.chunkOffsets, w.wideOffsets, limits, read.chunkOffsets);
    ChunkRowsRoundTrip(t.sampleToChunk, limits, read.sampleToChunk);
  }
}
