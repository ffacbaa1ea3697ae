/** Chunks of length-prefixed samples: what converting and listing them gives of the units they were written from. */
module NalChunks {
  import opened Machine
  import opened AnnexB
  import opened PayloadForms

  /** Every sample lies in the payload and holds those units. */
  ghost predicate HoldsUnits(payload: seq<byte>, s: ChunkSample, units: seq<seq<byte>>, size: nat) {
    && s.payloadOffset + s.byteCount <= |payload| && Fitting(units, size)
    && payload[s.payloadOffset..s.payloadOffset + s.byteCount] == Prefixed(units, size)
  }

  ghost predicate WrittenFrom(payload: seq<byte>, samples: seq<ChunkSample>, units: seq<seq<seq<byte>>>, size: nat) {
    |samples| == |units| && forall i :: 0 <= i < |samples| ==> HoldsUnits(payload, samples[i], units[i], size)
  }

  lemma {:induction false} FirstHolds(payload: seq<byte>, samples: seq<ChunkSample>, units: seq<seq<seq<byte>>>,
                                      size: nat)
    requires WrittenFrom(payload, samples, units, size) && samples != []
    ensures HoldsUnits(payload, samples[0], units[0], size) && WrittenFrom(payload, samples[1..], units[1..], size)
  {
    hide HoldsUnits;
  }

  lemma {:induction false} SampleParses(codec: Codec, payload: seq<byte>, s: ChunkSample, units: seq<seq<byte>>,
                                        size: nat)
    requires ValidLengthSize(size) && HoldsUnits(payload, s, units, size)
    ensures Slice(payload, s) == Ok(Prefixed(units, size))
    ensures var sample := Prefixed(units, size);
            var nals := Nals(sample, size, 0);
            && nals.Ok? && (forall n <- nals.value :: End(n) <= |sample|)
            && StartCoded(codec, sample, nals.value) == ByteStream(KeptUnits(codec, units))
  {
    hide Prefixed, Nals, StartCoded, ByteStream, KeptUnits, Fitting;
    var sample := Prefixed(units, size);
    assert sample == [] + sample;
    PrefixedParses(codec, sample, [], units, size);
  }

  /** The kept units of all samples. */
  function AllKept(codec: Codec, units: seq<seq<seq<byte>>>): seq<seq<byte>> {
    if units == [] then [] else KeptUnits(codec, units[0]) + AllKept(codec, units[1..])
  }

  lemma {:induction false} ChunkParses(payload: seq<byte>, samples: seq<ChunkSample>, units: seq<seq<seq<byte>>>,
                                       size: nat)
    requires ValidLengthSize(size) && WrittenFrom(payload, samples, units, size)
    ensures Parses(payload, samples, size)
  {
    hide Nals, Slice, HoldsUnits;
    forall s | s in samples ensures Slice(payload, s).Ok? && Nals(Slice(payload, s).value, size, 0).Ok? {
      var i :| 0 <= i < |samples| && samples[i] == s;
      assert HoldsUnits(payload, samples[i], units[i], size);
      SampleParses(Codec.Avc, payload, s, units[i], size);
    }
  }

  /** Converting a chunk gives the units of its samples behind start codes, in order. */
  lemma {:induction false} ChunkConverts(codec: Codec, payload: seq<byte>, samples: seq<ChunkSample>,
                                         units: seq<seq<seq<byte>>>, size: nat)
    requires ValidLengthSize(size) && WrittenFrom(payload, samples, units, size)
    ensures Parses(payload, samples, size)
    ensures ChunkStartCoded(codec, payload, samples, size) == ByteStream(AllKept(codec, units))
    decreases |samples|
  {
    ChunkParses(payload, samples, units, size);
    if samples != [] {
      hide HoldsUnits, Parses, Nals, StartCoded, ByteStream, KeptUnits, Slice, Prefixed, WrittenFrom;
      FirstHolds(payload, samples, units, size);
      SampleParses(codec, payload, samples[0], units[0], size);
      ChunkConverts(codec, payload, samples[1..], units[1..], size);
      StreamAppend(KeptUnits(codec, units[0]), AllKept(codec, units[1..]));
    }
  }

  /** How the units of a sample are listed, from `at` on: where the bytes of each non-empty one are, and its type. */
  function ListedAs(s: ChunkSample, at: nat, units: seq<seq<byte>>, size: nat): seq<AvcNalUnit>
    decreases |units|
  {
    if units == [] then [] else
      (if units[0] == [] then []
       else [AvcNalUnit(s.index, s.payloadOffset, s.payloadOffset + at + size, |units[0]|, units[0][0] % 32)])
      + ListedAs(s, at + size + |units[0]|, units[1..], size)
  }

  function AllListed(samples: seq<ChunkSample>, units: seq<seq<seq<byte>>>, size: nat): seq<AvcNalUnit>
    requires |samples| == |units|
  {
    if samples == [] then [] else ListedAs(samples[0], 0, units[0], size) + AllListed(samples[1..], units[1..], size)
  }

  lemma {:induction false} PayloadAt(payload: seq<byte>, s: ChunkSample, at: nat)
    requires s.payloadOffset + s.byteCount <= |payload| && at < s.byteCount
    ensures payload[s.payloadOffset..s.payloadOffset + s.byteCount][at] == payload[s.payloadOffset + at]
  {
  }

  lemma {:induction false} SampleIsListed(payload: seq<byte>, s: ChunkSample, before: seq<byte>, units: seq<seq<byte>>,
                                          size: nat)
    requires ValidLengthSize(size) && Fitting(units, size) && s.payloadOffset + s.byteCount <= |payload|
    requires payload[s.payloadOffset..s.payloadOffset + s.byteCount] == before + Prefixed(units, size)
    ensures Slice(payload, s).Ok? && |before| <= |Slice(payload, s).value|
    ensures UnitsOf(payload, s, size, |before|) == ListedAs(s, |before|, units, size)
    decreases |units|
  {
    hide NalAt, BeBytes, Prefixed, Fitting, Pow256, UnitsOf, ListedAs;
    var sample := Slice(payload, s).value;
    if units == [] {
      NothingToList(payload, s, size);
      assert Prefixed([], size) == [] by { NoUnits(Codec.Avc, [], size); }
      assert before + [] == before;
    } else {
      var u := units[0];
      var next := before + BeBytes(|u|, size) + u;
      FirstNal(sample, before, units, size);
      SampleIsListed(payload, s, next, units[1..], size);
      if u != [] {
        PayloadAt(payload, s, |before| + size);
        assert sample[|before| + size..|before| + size + |u|][0] == u[0];
      }
      UnitIsListed(payload, s, before, u, size);
      ListedStep(s, |before|, units, size);
    }
  }

  lemma {:induction false} NothingToList(payload: seq<byte>, s: ChunkSample, size: nat)
    requires ValidLengthSize(size) && Slice(payload, s).Ok?
    ensures UnitsOf(payload, s, size, |Slice(payload, s).value|) == []
    ensures ListedAs(s, |Slice(payload, s).value|, [], size) == []
  {
  }

  lemma {:induction false} ListedStep(s: ChunkSample, at: nat, units: seq<seq<byte>>, size: nat)
    requires units != []
    ensures ListedAs(s, at, units, size) ==
            (if units[0] == [] then []
             else [AvcNalUnit(s.index, s.payloadOffset, s.payloadOffset + at + size, |units[0]|, units[0][0] % 32)])
            + ListedAs(s, at + size + |units[0]|, units[1..], size)
  {
  }

  lemma {:induction false} UnitIsListed(payload: seq<byte>, s: ChunkSample, before: seq<byte>, u: seq<byte>, size: nat)
    requires ValidLengthSize(size) && Slice(payload, s).Ok? && |before| < |Slice(payload, s).value|
    requires var sample, nal := Slice(payload, s).value, Nal(|before| + size, |u|);
             && NalAt(sample, size, |before|) == Ok(nal) && End(nal) <= |sample|
             && (u != [] ==> payload[s.payloadOffset + nal.start] == u[0])
    ensures UnitsOf(payload, s, size, |before|) ==
            (if u == [] then []
             else [AvcNalUnit(s.index, s.payloadOffset, s.payloadOffset + |before| + size, |u|, u[0] % 32)])
            + UnitsOf(payload, s, size, |before| + size + |u|)
  {
    hide NalAt, NalsBefore, SampleUnits;
    var sample, nal := Slice(payload, s).value, Nal(|before| + size, |u|);
    NalsBeforeStep(sample, size, |before|);
    UnitsStep(payload, s, nal, NalsBefore(sample, size, End(nal)));
  }

  lemma {:induction false} NalsBeforeStep(sample: seq<byte>, size: nat, at: nat)
    requires at < |sample| && ValidLengthSize(size) && NalAt(sample, size, at).Ok?
    ensures var nal := NalAt(sample, size, at).value;
            NalsBefore(sample, size, at) == [nal] + NalsBefore(sample, size, End(nal))
  {
    hide NalAt;
  }

  lemma {:induction false} UnitsStep(payload: seq<byte>, s: ChunkSample, n: Nal, rest: seq<Nal>)
    requires s.payloadOffset + End(n) <= |payload| && forall m <- rest :: s.payloadOffset + End(m) <= |payload|
    ensures forall m <- [n] + rest :: s.payloadOffset + End(m) <= |payload|
    ensures SampleUnits(payload, s, [n] + rest) == ListedIfAny(payload, s, n) + SampleUnits(payload, s, rest)
  {
    hide ListedIfAny;
    assert ([n] + rest)[1..] == rest;
  }

  /** Listing a chunk gives its non-empty units in order: their samples, the places of their bytes and their types. */
  lemma {:induction false} ChunkIsListed(payload: seq<byte>, samples: seq<ChunkSample>, units: seq<seq<seq<byte>>>,
                                         size: nat)
    requires ValidLengthSize(size) && WrittenFrom(payload, samples, units, size)
    ensures FirstBroken(payload, samples, size) == None
    ensures UnitsBefore(payload, samples, size) == AllListed(samples, units, size)
    decreases |samples|
  {
    if samples != [] {
      hide HoldsUnits, Nals, UnitsOf, ListedAs, Slice, Prefixed, WrittenFrom;
      FirstHolds(payload, samples, units, size);
      SampleParses(Codec.Avc, payload, samples[0], units[0], size);
      ChunkIsListed(payload, samples[1..], units[1..], size);
      HeldIsListed(payload, samples[0], units[0], size);
    }
  }

  lemma {:induction false} HeldIsListed(payload: seq<byte>, s: ChunkSample, units: seq<seq<byte>>, size: nat)
    requires ValidLengthSize(size) && HoldsUnits(payload, s, units, size)
    ensures Slice(payload, s).Ok? && UnitsOf(payload, s, size, 0) == ListedAs(s, 0, units, size)
  {
    hide UnitsOf, ListedAs, Prefixed, Fitting;
    assert [] + Prefixed(units, size) == Prefixed(units, size);
    SampleIsListed(payload, s, [], units, size);
  }
}
