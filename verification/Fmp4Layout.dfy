/** A media fragment as a reader of ISO/IEC 14496-12 (section 8.8) takes it apart: boxes by name, and runs whose flags
    say which fields they have. */
module Fmp4Layout {
  import opened Machine
  import opened Fmp4Boxes
  import opened Fmp4Parse
  import opened Fmp4Writer
  import opened Fmp4RoundTrip

  // ----- the reader -----

  function U32At(b: seq<byte>, at: nat): nat
    requires at + 4 <= |b|
  {
    b[at] as int * 0x100_0000 + b[at + 1] as int * 0x1_0000 + b[at + 2] as int * 0x100 + b[at + 3] as int
  }

  function I32At(b: seq<byte>, at: nat): int
    requires at + 4 <= |b|
  {
    if b[at] >= 0x80 then U32At(b, at) - 0x1_0000_0000 else U32At(b, at)
  }

  function U64At(b: seq<byte>, at: nat): nat
    requires at + 8 <= |b|
  {
    U32At(b, at) * 0x1_0000_0000 + U32At(b, at + 4)
  }

  datatype Part = Part(name: string, payload: seq<byte>)

  /** Box after box, to the end. */
  function Parts(b: seq<byte>): Option<seq<Part>> {
    if b == [] then Some([])
    else if |b| < 8 || U32At(b, 0) < 8 || U32At(b, 0) > |b| then None
    else
      var size := U32At(b, 0);
      match Parts(b[size..])
      case None => None
      case Some(rest) => Some([Part([b[4] as char, b[5] as char, b[6] as char, b[7] as char], b[8..size])] + rest)
  }

  /** Whether the flags of a full box have that bit. */
  predicate Flagged(b: seq<byte>, bit: nat)
    requires |b| >= 4 && bit > 0
  {
    U32At(b, 0) % 0x100_0000 / bit % 2 == 1
  }

  datatype RunSample = RunSample(duration: Option<nat>, size: Option<nat>, flags: Option<nat>, shift: Option<int>)

  function Width(present: bool): nat { if present then 4 else 0 }

  function Field(b: seq<byte>, at: nat, present: bool): Option<nat>
    requires at + Width(present) <= |b|
  {
    if present then Some(U32At(b, at)) else None
  }

  /** Samples of a run of version 1, whose time offsets are signed. */
  function RunSamples(b: seq<byte>, at: nat, n: nat, d: bool, s: bool, f: bool, c: bool): Option<seq<RunSample>>
    decreases n
  {
    if n == 0 then (if at == |b| then Some([]) else None)
    else
      var size, flags, shift := at + Width(d), at + Width(d) + Width(s), at + Width(d) + Width(s) + Width(f);
      if shift + Width(c) > |b| then None
      else match RunSamples(b, shift + Width(c), n - 1, d, s, f, c)
        case None => None
        case Some(rest) =>
          Some([RunSample(Field(b, at, d), Field(b, size, s), Field(b, flags, f),
                          if c then Some(I32At(b, shift)) else None)] + rest)
  }

  /** A track run (section 8.8.8): its data offset, and its samples. */
  datatype Run = Run(dataOffset: Option<int>, samples: seq<RunSample>)

  function ReadRunBox(b: seq<byte>): Option<Run> {
    if |b| < 8 || b[0] != 1 then None
    else
      var first := 8 + Width(Flagged(b, 1)) + Width(Flagged(b, 4));
      if first > |b| then None
      else match RunSamples(b, first, U32At(b, 4), Flagged(b, 0x100), Flagged(b, 0x200), Flagged(b, 0x400),
                            Flagged(b, 0x800))
        case None => None
        case Some(samples) => Some(Run(if Flagged(b, 1) then Some(I32At(b, 8)) else None, samples))
  }

  /** A track fragment (section 8.8.6) whose data offsets count from the start of its `moof`. */
  datatype Fragment = Fragment(trackId: nat, time: nat, run: Run)

  function ReadTraf(b: seq<byte>): Option<Fragment> {
    match Parts(b)
    case None => None
    case Some(parts) =>
      if |parts| != 3 || parts[0].name != "tfhd" || parts[1].name != "tfdt" || parts[2].name != "trun" then None
      else
        var tfhd, tfdt, run := parts[0].payload, parts[1].payload, ReadRunBox(parts[2].payload);
        if |tfhd| != 8 || U32At(tfhd, 0) != 0x2_0000 || |tfdt| != 12 || U32At(tfdt, 0) != 0x100_0000 || run.None?
        then None
        else Some(Fragment(U32At(tfhd, 4), U64At(tfdt, 4), run.value))
  }

  function ReadTrafs(parts: seq<Part>): Option<seq<Fragment>> {
    if parts == [] then Some([])
    else if parts[0].name != "traf" || ReadTraf(parts[0].payload).None? then None
    else match ReadTrafs(parts[1..])
      case None => None
      case Some(rest) => Some([ReadTraf(parts[0].payload).value] + rest)
  }

  /** A movie fragment (section 8.8.4): its number, and its tracks. */
  datatype Movie = Movie(sequence: nat, tracks: seq<Fragment>, data: seq<byte>)

  function ReadMovie(b: seq<byte>): Option<Movie> {
    match Parts(b)
    case None => None
    case Some(top) =>
      if |top| != 2 || top[0].name != "moof" || top[1].name != "mdat" then None
      else match Parts(top[0].payload)
        case None => None
        case Some(parts) =>
          if parts == [] || parts[0].name != "mfhd" || |parts[0].payload| != 8 || U32At(parts[0].payload, 0) != 0
          then None
          else match ReadTrafs(parts[1..])
            case None => None
            case Some(tracks) => Some(Movie(U32At(parts[0].payload, 4), tracks, top[1].payload))
  }

  // ----- numbers -----

  lemma {:induction false} FourDigits(x: nat)
    requires x < 0x1_0000_0000
    ensures var a := x / 0x100_0000;
            && a < 256 && (a >= 0x80 <==> x >= 0x8000_0000)
            && a * 0x100_0000 + x / 0x1_0000 % 256 * 0x1_0000 + x / 256 % 256 * 0x100 + x % 256 == x
  {
    var b, c := x / 0x1_0000, x / 256;
    assert c / 256 == b && b / 256 == x / 0x100_0000;
    assert x == c * 256 + x % 256 && c == b * 256 + c % 256 && b == b / 256 * 256 + b % 256;
  }

  lemma {:induction false} PartAt(before: seq<byte>, part: seq<byte>, rest: seq<byte>)
    requires |part| == 4
    ensures var b, n := before + part + rest, |before|;
            b[n] == part[0] && b[n + 1] == part[1] && b[n + 2] == part[2] && b[n + 3] == part[3]
  {
  }

  lemma {:induction false} FourAt(x: nat, before: seq<byte>, rest: seq<byte>)
    requires x < 0x1_0000_0000
    ensures var b := before + BeBytes(x, 4) + rest;
            U32At(b, |before|) == x && (b[|before|] >= 0x80 <==> x >= 0x8000_0000)
  {
    hide BeBytes;
    FourBeBytes(x);
    PartAt(before, BeBytes(x, 4), rest);
    FourDigits(x);
    assert x / 0x100_0000 % 256 == x / 0x100_0000;
  }

  lemma {:induction false} SignedAt(x: i32, before: seq<byte>, rest: seq<byte>)
    ensures I32At(before + BeI32(x) + rest, |before|) == x
  {
    FourAt(x % 0x1_0000_0000, before, rest);
  }

  lemma {:induction false} EightBeBytes(x: u64)
    ensures BeBytes(x, 8) == BeBytes(x / 0x1_0000_0000, 4) + BeBytes(x % 0x1_0000_0000, 4)
  {
    var a, b, c, d := x / 256, x / 0x1_0000, x / 0x100_0000, x / 0x1_0000_0000;
    assert a / 256 == b && b / 256 == c && c / 256 == d;
    assert BeBytes(c, 5) == BeBytes(d, 4) + [c % 256];
    assert BeBytes(b, 6) == BeBytes(c, 5) + [b % 256];
    assert BeBytes(a, 7) == BeBytes(b, 6) + [a % 256];
    assert BeBytes(x, 8) == BeBytes(a, 7) + [x % 256];
    FourBeBytes(x % 0x1_0000_0000);
    LowDigits(x);
  }

  lemma {:induction false} LowDigits(x: nat)
    ensures var low := x % 0x1_0000_0000;
            && low / 0x100_0000 % 256 == x / 0x100_0000 % 256 && low / 0x1_0000 % 256 == x / 0x1_0000 % 256
            && low / 256 % 256 == x / 256 % 256 && low % 256 == x % 256
  {
    var q, low := x / 0x1_0000_0000, x % 0x1_0000_0000;
    assert x == q * 0x1_0000_0000 + low;
    DivIs(x, 0x100_0000, q * 256 + low / 0x100_0000, low % 0x100_0000);
    DivIs(x, 0x1_0000, q * 0x1_0000 + low / 0x1_0000, low % 0x1_0000);
    DivIs(x, 256, q * 0x100_0000 + low / 256, low % 256);
    SameDigit(q, low / 0x100_0000);
    SameDigit(q * 256, low / 0x1_0000);
    SameDigit(q * 0x1_0000, low / 256);
  }

  lemma {:induction false} SameDigit(a: nat, b: nat)
    ensures (a * 256 + b) % 256 == b % 256
  {
  }

  lemma {:induction false} EightAt(x: u64, before: seq<byte>)
    ensures U64At(before + BeBytes(x, 8), |before|) == x
  {
    EightBeBytes(x);
    var hi, lo := x / 0x1_0000_0000, x % 0x1_0000_0000;
    Regroup(before, BeBytes(hi, 4), BeBytes(lo, 4));
    FourAt(hi, before, BeBytes(lo, 4));
    FourAt(lo, before + BeBytes(hi, 4), []);
    assert before + BeBytes(hi, 4) + BeBytes(lo, 4) + [] == before + BeBytes(hi, 4) + BeBytes(lo, 4);
  }

  // ----- boxes -----

  function Chars(name: seq<byte>): string
    requires |name| == 4
  {
    [name[0] as char, name[1] as char, name[2] as char, name[3] as char]
  }

  lemma {:induction false} PartsOfBox(name: seq<byte>, payload: seq<byte>, rest: seq<byte>)
    requires |name| == 4 && 8 + |payload| <= U32_MAX
    ensures Parts(Box(name, payload) + rest) ==
            match Parts(rest) case None => None case Some(more) => Some([Part(Chars(name), payload)] + more)
  {
    hide BeBytes, U32At;
    var n := 8 + |payload|;
    var b := Box(name, payload) + rest;
    FourAt(n, [], name + payload + rest);
    assert [] + BeBytes(n, 4) + (name + payload + rest) == b;
    Slices(BeBytes(n, 4), name, payload, rest);
    assert b[4] == b[4..8][0] && b[5] == b[4..8][1] && b[6] == b[4..8][2] && b[7] == b[4..8][3];
  }

  lemma {:induction false} LastPart(name: seq<byte>, payload: seq<byte>)
    requires |name| == 4 && 8 + |payload| <= U32_MAX
    ensures Parts(Box(name, payload)) == Some([Part(Chars(name), payload)])
  {
    hide Box, U32At, Chars;
    PartsOfBox(name, payload, []);
    assert Box(name, payload) + [] == Box(name, payload);
    NoParts();
    assert [Part(Chars(name), payload)] + [] == [Part(Chars(name), payload)];
  }

  lemma {:induction false} NoParts()
    ensures Parts([]) == Some([])
  {
  }

  lemma {:induction false} Names()
    ensures Chars(MOOF) == "moof" && Chars(MFHD) == "mfhd" && Chars(MDAT) == "mdat" && Chars(TRAF) == "traf"
    ensures Chars(TFHD) == "tfhd" && Chars(TFDT) == "tfdt" && Chars(TRUN) == "trun"
  {
  }

  // ----- a run -----

  /** A sample with all four fields. */
  function Whole(s: Sample): RunSample {
    RunSample(Some(s.duration), Some(s.size), Some(s.flags), Some(s.compositionOffset))
  }

  function Wholes(samples: seq<Sample>): seq<RunSample> {
    if samples == [] then [] else [Whole(samples[0])] + Wholes(samples[1..])
  }

  lemma {:induction false} SampleFieldsAt(s: Sample, before: seq<byte>, rest: seq<byte>)
    ensures var b, n := before + SampleBytes(s) + rest, |before|;
            && U32At(b, n) == s.duration && U32At(b, n + 4) == s.size && U32At(b, n + 8) == s.flags
            && I32At(b, n + 12) == s.compositionOffset
  {
    hide BeBytes, BeI32, U32At, I32At;
    var d, z, f, c := BeBytes(s.duration, 4), BeBytes(s.size, 4), BeBytes(s.flags, 4), BeI32(s.compositionOffset);
    var b := before + SampleBytes(s) + rest;
    FourAt(s.duration, before, z + f + c + rest);
    FourAt(s.size, before + d, f + c + rest);
    FourAt(s.flags, before + d + z, c + rest);
    SignedAt(s.compositionOffset, before + d + z + f, rest);
    assert before + d + (z + f + c + rest) == b && before + d + z + (f + c + rest) == b;
    assert before + d + z + f + (c + rest) == b && before + d + z + f + c + rest == b;
  }

  lemma {:induction false} TableReads(before: seq<byte>, samples: seq<Sample>)
    ensures RunSamples(before + SampleTable(samples), |before|, |samples|, true, true, true, true) ==
            Some(Wholes(samples))
    decreases |samples|
  {
    hide SampleBytes, U32At, I32At;
    if samples == [] {
      assert before + [] == before;
    } else {
      var s := samples[0];
      SampleFieldsAt(s, before, SampleTable(samples[1..]));
      Regroup(before, SampleBytes(s), SampleTable(samples[1..]));
      TableReads(before + SampleBytes(s), samples[1..]);
    }
  }

  lemma {:induction false} RunFlagBytes()
    ensures [1] + BeBytes(0xf01, 3) == BeBytes(0x100_0f01, 4)
  {
    hide BeBytes;
    ThreeFlags();
    FourBeBytes(0x100_0f01);
  }

  lemma {:induction false} RunFront(samples: seq<Sample>, dataOffset: i32)
    requires |samples| <= U32_MAX
    ensures var b := TrunPayload(samples, dataOffset);
            && b[0] == 1 && U32At(b, 0) == 0x100_0f01 && U32At(b, 4) == |samples| && I32At(b, 8) == dataOffset
  {
    hide U32At, I32At, BeBytes, BeI32;
    var b, table := TrunPayload(samples, dataOffset), SampleTable(samples);
    var flags, count, offset := [1] + BeBytes(0xf01, 3), BeBytes(|samples|, 4), BeI32(dataOffset);
    RunFlagBytes();
    FourAt(0x100_0f01, [], count + offset + table);
    FourAt(|samples|, flags, offset + table);
    SignedAt(dataOffset, flags + count, table);
    assert [] + flags + (count + offset + table) == b && flags + count + (offset + table) == b;
    assert flags + count + offset + table == b;
  }

  lemma {:induction false} ThreeFlags()
    ensures BeBytes(0xf01, 3) == [0, 0x0f, 1] && BeBytes(0x2_0000, 3) == [2, 0, 0] && BeBytes(0, 3) == [0, 0, 0]
  {
    assert BeBytes(0xf01, 1 + 1 + 1) == BeBytes(0xf, 2) + [1] && BeBytes(0xf, 2) == BeBytes(0, 1) + [0xf];
    assert BeBytes(0x2_0000, 3) == BeBytes(0x200, 2) + [0] && BeBytes(0x200, 2) == BeBytes(2, 1) + [0];
    assert BeBytes(0, 3) == BeBytes(0, 2) + [0] && BeBytes(0, 2) == BeBytes(0, 1) + [0];
    assert BeBytes(0, 1) == [] + [0] && BeBytes(2, 1) == [] + [2];
  }

  lemma {:induction false} RunReads(samples: seq<Sample>, dataOffset: i32)
    requires |samples| <= U32_MAX
    ensures ReadRunBox(TrunPayload(samples, dataOffset)) == Some(Run(Some(dataOffset), Wholes(samples)))
  {
    hide U32At, I32At, RunSamples, BeBytes, BeI32;
    var b := TrunPayload(samples, dataOffset);
    RunFront(samples, dataOffset);
    var front := [1] + BeBytes(0xf01, 3) + BeBytes(|samples|, 4) + BeI32(dataOffset);
    TableReads(front, samples);
    assert front + SampleTable(samples) == b;
    assert Flagged(b, 1) && !Flagged(b, 4) && Flagged(b, 0x100) && Flagged(b, 0x200) && Flagged(b, 0x400)
           && Flagged(b, 0x800);
  }

  // ----- tracks -----

  /** A track as read, with the data offset it was given. */
  function Written(t: Track, dataOffset: int): Fragment {
    Fragment(t.trackId, t.baseDecodeTime, Run(Some(dataOffset), Wholes(t.samples)))
  }

  lemma {:induction false} FlagBytes()
    ensures [0] + BeBytes(0, 3) == BeBytes(0, 4) && [0] + BeBytes(0x2_0000, 3) == BeBytes(0x2_0000, 4)
    ensures [1] + BeBytes(0, 3) == BeBytes(0x100_0000, 4)
  {
    hide BeBytes;
    ThreeFlags();
    FourBeBytes(0);
    FourBeBytes(0x2_0000);
    FourBeBytes(0x100_0000);
  }

  lemma {:induction false} NumberFields(flags: nat, n: u32)
    requires flags == 0 || flags == 0x2_0000
    ensures var b := NumberPayload(flags, n); U32At(b, 0) == flags && U32At(b, 4) == n
  {
    hide U32At, BeBytes;
    var b, front := NumberPayload(flags, n), [0] + BeBytes(flags, 3);
    FlagBytes();
    FourAt(flags, [], BeBytes(n, 4));
    FourAt(n, front, []);
    assert [] + front + BeBytes(n, 4) == b && front + BeBytes(n, 4) + [] == b;
  }

  lemma {:induction false} TimeFields(t: Track)
    ensures var b := TfdtPayload(t); U32At(b, 0) == 0x100_0000 && U64At(b, 4) == t.baseDecodeTime
  {
    hide U32At, U64At, BeBytes;
    var b, front := TfdtPayload(t), [1] + BeBytes(0, 3);
    FlagBytes();
    FourAt(0x100_0000, [], BeBytes(t.baseDecodeTime, 8));
    EightAt(t.baseDecodeTime, front);
    assert [] + front + BeBytes(t.baseDecodeTime, 8) == b;
  }

  lemma {:induction false} TrafParts(t: Track, dataOffset: i32)
    requires TrafLength(t) <= U32_MAX
    ensures Parts(TrafPayload(t, dataOffset)) ==
            Some([Part("tfhd", NumberPayload(0x2_0000, t.trackId)), Part("tfdt", TfdtPayload(t)),
                  Part("trun", TrunPayload(t.samples, dataOffset))])
  {
    hide Parts, BeBytes, TfdtPayload, TrunPayload, Chars, Box;
    Names();
    var number, time, run := NumberPayload(0x2_0000, t.trackId), TfdtPayload(t), TrunPayload(t.samples, dataOffset);
    LastPart(TRUN, run);
    PartsOfBox(TFDT, time, Box(TRUN, run));
    PartsOfBox(TFHD, number, Box(TFDT, time) + Box(TRUN, run));
    Regroup(Box(TFHD, number), Box(TFDT, time), Box(TRUN, run));
    assert TfhdBox(t) == Box(TFHD, number);
    var first, second, third := Part("tfhd", number), Part("tfdt", time), Part("trun", run);
    assert [first] + ([second] + [third]) == [first, second, third];
  }

  lemma {:induction false} TrafReads(t: Track, dataOffset: i32)
    requires TrafLength(t) <= U32_MAX
    ensures ReadTraf(TrafPayload(t, dataOffset)) == Some(Written(t, dataOffset))
  {
    hide Parts, U32At, U64At, ReadRunBox, TrafPayload, TfdtPayload, TrunPayload, NumberPayload;
    TrafParts(t, dataOffset);
    NumberFields(0x2_0000, t.trackId);
    TimeFields(t);
    RunReads(t.samples, dataOffset);
  }

  function AllWritten(tracks: seq<Track>, offsets: seq<i32>): seq<Fragment>
    requires |tracks| == |offsets|
  {
    if tracks == [] then [] else [Written(tracks[0], offsets[0])] + AllWritten(tracks[1..], offsets[1..])
  }

  lemma {:induction false} TrafsRead(tracks: seq<Track>, offsets: seq<i32>)
    requires |tracks| == |offsets| && TrafsLength(tracks) <= U32_MAX
    ensures Parts(Trafs(tracks, offsets)).Some?
    ensures ReadTrafs(Parts(Trafs(tracks, offsets)).value) == Some(AllWritten(tracks, offsets))
    decreases |tracks|
  {
    if tracks == [] {
      NoParts();
    } else {
      hide Parts, Box, ReadTraf, TrafPayload, Chars, Written;
      Names();
      var payload, rest := TrafPayload(tracks[0], offsets[0]), Trafs(tracks[1..], offsets[1..]);
      PartsOfBox(TRAF, payload, rest);
      TrafReads(tracks[0], offsets[0]);
      TrafsRead(tracks[1..], offsets[1..]);
      var more := Parts(rest).value;
      assert ([Part("traf", payload)] + more)[1..] == more;
    }
  }

  // ----- a fragment -----

  lemma {:induction false} MovieReads(sequence: u32, tracks: seq<Track>, offsets: seq<i32>, payload: seq<byte>)
    requires |tracks| == |offsets| && 24 + TrafsLength(tracks) <= U32_MAX && 8 + |payload| <= U32_MAX
    ensures ReadMovie(Moof(sequence, tracks, offsets) + MdatHeader(|payload|) + payload) ==
            Some(Movie(sequence, AllWritten(tracks, offsets), payload))
  {
    hide Parts, Box, BeBytes, Chars, U32At, Trafs, ReadTrafs, NumberPayload, MdatHeader;
    Names();
    var number, trafs := NumberPayload(0, sequence), Trafs(tracks, offsets);
    var body := Box(MFHD, number) + trafs;
    assert MfhdBox(sequence) == Box(MFHD, number) by { MfhdIs(sequence); }
    assert Moof(sequence, tracks, offsets) == Box(MOOF, body);
    MdatIsBox(Box(MOOF, body), payload);
    LastPart(MDAT, payload);
    PartsOfBox(MOOF, body, Box(MDAT, payload));
    PartsOfBox(MFHD, number, trafs);
    NumberFields(0, sequence);
    TrafsRead(tracks, offsets);
    var more := Parts(trafs).value;
    assert ([Part("mfhd", number)] + more)[1..] == more;
  }

  lemma {:induction false} MfhdIs(sequence: u32)
    ensures MfhdBox(sequence) == Box(MFHD, NumberPayload(0, sequence))
  {
    hide Box, BeBytes;
  }

  /** Each track's data offset leads to its payload, all of them behind one another. */
  ghost predicate Leads(bytes: seq<byte>, tracks: seq<Track>, offsets: seq<i32>) {
    && |offsets| == |tracks|
    && forall i :: 0 <= i < |tracks| ==>
         && 0 <= offsets[i] && offsets[i] + |tracks[i].payload| <= |bytes|
         && bytes[offsets[i]..offsets[i] + |tracks[i].payload|] == tracks[i].payload
  }

  lemma {:induction false} OffsetsLead(header: seq<byte>, tracks: seq<Track>, offsets: seq<i32>)
    requires Offsets(tracks, |header|) == Some(offsets)
    ensures Leads(header + Payloads(tracks), tracks, offsets)
  {
    hide Offsets, Payloads;
    forall i | 0 <= i < |tracks|
      ensures && 0 <= offsets[i] && offsets[i] + |tracks[i].payload| <= |header + Payloads(tracks)|
              && (header + Payloads(tracks))[offsets[i]..offsets[i] + |tracks[i].payload|] == tracks[i].payload
    {
      DataAt(header, tracks, i);
    }
  }

  /** A written fragment, taken apart by the standard alone: a `moof` with its number and every track with its decode
      time and all four fields of its samples, an `mdat` of all payloads, and data offsets that lead into it. */
  lemma {:induction false} FragmentIsRead(sequence: u32, tracks: seq<Track>, bytes: seq<byte>)
    returns (offsets: seq<i32>)
    requires MediaFragment(sequence, tracks) == Ok(bytes)
    ensures Leads(bytes, tracks, offsets)
    ensures ReadMovie(bytes) == Some(Movie(sequence, AllWritten(tracks, offsets), Payloads(tracks)))
  {
    hide ReadMovie, ValidateHeader, Payloads, Moof, MdatHeader, TrafsLength, PayloadLength, SizesMatch, Leads;
    offsets := Offsets(tracks, HeaderLength(tracks)).value;
    OffsetsFit(tracks, HeaderLength(tracks));
    OffsetsLead(HeaderBytes(sequence, tracks, offsets), tracks, offsets);
    MovieReads(sequence, tracks, offsets, Payloads(tracks));
  }
}
