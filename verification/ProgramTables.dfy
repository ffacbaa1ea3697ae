/** The program tables of a segment as a receiver reads them (ISO/IEC 13818-1 section 2.4.4). */
module ProgramTables {
  import opened Machine
  import opened TransportStream
  import opened MuxPayload
  import opened MuxSegment
  import Checksum
  import CrcReceiver

  datatype Program = Program(number: nat, mapPid: nat)

  datatype Stream = Stream(streamType: nat, pid: nat, descriptors: seq<byte>)

  datatype ProgramMap = ProgramMap(number: nat, clockPid: nat, streams: seq<Stream>)

  function Be16At(s: seq<byte>, at: nat): nat
    requires at + 2 <= |s|
  {
    s[at] as int * 256 + s[at + 1] as int
  }

  /** How many bytes a section says it has: its length field counts what follows it. */
  function SaidLength(s: seq<byte>): nat
    requires |s| >= 3
  {
    Be16At(s, 1) % 4096 + 3
  }

  /** The section of a unit: behind the byte that says where it starts, as many bytes as it says; nothing while some are
      missing. */
  function SectionOf(unit: seq<byte>): Option<seq<byte>> {
    if unit == [] || |unit| < unit[0] as int + 4 then None
    else
      var s := unit[unit[0] as int + 1..];
      if SaidLength(s) <= |s| then Some(s[..SaidLength(s)]) else None
  }

  /** A long section of that kind, in force now and alone. */
  predicate Alone(s: seq<byte>, tableId: byte) {
    12 <= |s| <= 1024 && s[0] == tableId && s[1] / 128 == 1 && s[5] % 2 == 1 && s[6] == 0 && s[7] == 0
  }

  function ReadPrograms(s: seq<byte>, at: nat): Option<seq<Program>>
    requires 8 <= at && |s| >= 12
    decreases |s| - at
  {
    if at + 4 == |s| then Some([])
    else if at + 8 > |s| then None
    else match ReadPrograms(s, at + 4)
      case None => None
      case Some(rest) => Some([Program(Be16At(s, at), Be16At(s, at + 2) % 8192)] + rest)
  }

  /** The program association section of section 2.4.4.3. */
  function ReadPat(s: seq<byte>): Option<seq<Program>> {
    if Alone(s, 0) then ReadPrograms(s, 8) else None
  }

  function ReadStreams(s: seq<byte>, at: nat): Option<seq<Stream>>
    requires |s| >= 12
    decreases |s| - at
  {
    if at + 4 == |s| then Some([])
    else if at + 9 > |s| || at + 9 + Be16At(s, at + 3) % 4096 > |s| then None
    else
      var next := at + 5 + Be16At(s, at + 3) % 4096;
      match ReadStreams(s, next)
      case None => None
      case Some(rest) => Some([Stream(s[at], Be16At(s, at + 1) % 8192, s[at + 5..next])] + rest)
  }

  /** The program map section of section 2.4.4.8. */
  function ReadPmt(s: seq<byte>): Option<ProgramMap> {
    if !Alone(s, 2) || |s| < 16 || Be16At(s, 10) % 4096 + 16 > |s| then None
    else match ReadStreams(s, 12 + Be16At(s, 10) % 4096)
      case None => None
      case Some(streams) => Some(ProgramMap(Be16At(s, 3), Be16At(s, 8) % 8192, streams))
  }

  /** Format identifiers that announce AC-3, and enhanced AC-3 as both. */
  function Announced(kind: PayloadKind): seq<byte> {
    match kind
    case Ac3 => [5, 4, 0x41, 0x43, 0x2d, 0x33]
    case Eac3 => [5, 4, 0x41, 0x43, 0x2d, 0x33, 5, 4, 0x45, 0x41, 0x43, 0x33]
    case _ => []
  }

  /** Stream types as registered for each kind of payload. */
  predicate TypeOf(kind: PayloadKind, streamType: nat) {
    match kind
    case Avc(_, _, _) => streamType == 27
    case Hevc(_, _) => streamType == 36
    case Aac(_) => streamType == 15
    case Ac3 => streamType == 129
    case Eac3 => streamType == 135
    case RawAudio => streamType == 6
  }

  lemma {:induction false} NoMore(s: seq<byte>, at: nat)
    requires at >= 8 && |s| >= 12 && at + 4 == |s|
    ensures ReadPrograms(s, at) == Some([]) && ReadStreams(s, at) == Some([])
  {
  }

  lemma {:induction false} OneProgram(s: seq<byte>, at: nat)
    requires at >= 8 && at + 8 == |s|
    ensures ReadPrograms(s, at) == Some([Program(Be16At(s, at), Be16At(s, at + 2) % 8192)])
  {
    hide Be16At;
    NoMore(s, at + 4);
    var only := Program(Be16At(s, at), Be16At(s, at + 2) % 8192);
    assert [only] + [] == [only];
  }

  lemma {:induction false} PatReads(s: seq<byte>)
    requires s == PatSection()
    ensures ReadPat(s) == Some([Program(1, 0x1000)]) && SaidLength(s) == |s| == 16
  {
    hide Checksum.CrcBytes, Checksum.Crc32Mpeg, ReadPrograms;
    OneProgram(s, 8);
    var body := PatBody();
    assert forall i :: 0 <= i < 12 ==> s[i] == body[i];
    assert s[0] == 0 && s[1] == 0xb0 && s[2] == 0x0d && s[5] == 0xc1 && s[6] == 0 && s[7] == 0;
    assert s[8] == 0 && s[9] == 1 && s[10] == 0xf0 && s[11] == 0;
  }

  lemma {:induction false} DescriptorsAre(kind: PayloadKind)
    ensures AudioDescriptors(StreamType(kind)) == Announced(kind) && |AudioDescriptors(StreamType(kind))| <= 12
  {
  }

  lemma {:induction false} NextStream(s: seq<byte>, at: nat, descriptors: seq<byte>, rest: seq<Stream>)
    requires |s| >= 12 && at + 9 + |descriptors| <= |s| && Be16At(s, at + 3) % 4096 == |descriptors|
    requires s[at + 5..at + 5 + |descriptors|] == descriptors
    requires ReadStreams(s, at + 5 + |descriptors|) == Some(rest)
    ensures ReadStreams(s, at) == Some([Stream(s[at], Be16At(s, at + 1) % 8192, descriptors)] + rest)
  {
    hide Be16At;
  }

  /** The bytes of a map section before the descriptors, and all of it. */
  ghost predicate FrontLaid(s: seq<byte>, videoType: byte, audioType: byte, n: nat) {
    && |s| >= 22
    && s[0] == 2 && s[1] == 0xb0 && s[2] == 25 + n && s[3] == 0 && s[4] == 1 && s[5] == 0xc1
    && s[6] == 0 && s[7] == 0 && s[8] == 0xe1 && s[9] == 0 && s[10] == 0xf0 && s[11] == 0
    && s[12] == videoType && s[13] == 0xe1 && s[14] == 0 && s[15] == 0xf0 && s[16] == 0
    && s[17] == audioType && s[18] == 0xe1 && s[19] == 1 && s[20] == 0xf0 && s[21] == n
  }

  ghost predicate Laid(s: seq<byte>, videoType: byte, audioType: byte, d: seq<byte>) {
    |s| == 26 + |d| && |d| <= 12 && FrontLaid(s, videoType, audioType, |d|) && s[22..22 + |d|] == d
  }

  lemma {:induction false} BodyIsLaid(videoType: byte, audioType: byte)
    requires |AudioDescriptors(audioType)| <= 12
    ensures FrontLaid(PmtBody(videoType, audioType), videoType, audioType, |AudioDescriptors(audioType)|)
    ensures PmtBody(videoType, audioType)[22..] == AudioDescriptors(audioType)
  {
    hide AudioDescriptors;
  }

  lemma {:induction false} PmtIsLaid(videoType: byte, audioType: byte)
    requires |AudioDescriptors(audioType)| <= 12
    ensures Laid(PmtSection(videoType, audioType), videoType, audioType, AudioDescriptors(audioType))
  {
    hide Checksum.CrcBytes, Checksum.Crc32Mpeg, AudioDescriptors, PmtBody;
    var s, d, body := PmtSection(videoType, audioType), AudioDescriptors(audioType), PmtBody(videoType, audioType);
    BodyIsLaid(videoType, audioType);
    assert |body| == 22 + |body[22..]| && body <= s;
    assert s[22..22 + |d|] == body[22..];
  }

  lemma {:induction false} LaidStreams(s: seq<byte>, videoType: byte, audioType: byte, d: seq<byte>)
    requires Laid(s, videoType, audioType, d)
    ensures ReadStreams(s, 12) == Some([Stream(videoType, 0x100, []), Stream(audioType, 0x101, d)])
  {
    hide ReadStreams;
    NoMore(s, 22 + |d|);
    NextStream(s, 17, d, []);
    var video, audio := Stream(videoType, 0x100, []), Stream(audioType, 0x101, d);
    assert [audio] + [] == [audio];
    NextStream(s, 12, [], [audio]);
    assert [video] + [audio] == [video, audio];
  }

  lemma {:induction false} LaidReads(s: seq<byte>, videoType: byte, audioType: byte, d: seq<byte>)
    requires Laid(s, videoType, audioType, d)
    ensures ReadPmt(s) == Some(ProgramMap(1, 0x100, [Stream(videoType, 0x100, []), Stream(audioType, 0x101, d)]))
    ensures SaidLength(s) == |s| + 2
  {
    hide ReadStreams;
    LaidStreams(s, videoType, audioType, d);
  }

  lemma {:induction false} SectionBehind(section: seq<byte>)
    requires |section| >= 3
    ensures SectionOf([0] + section) == if SaidLength(section) <= |section| then Some(section[..SaidLength(section)])
                                        else None
  {
    assert ([0] + section)[1..] == section;
  }

  /** A program table that is complete, passes its check and names the map's PID. */
  ghost predicate PatArrives(units: seq<seq<byte>>) {
    && |units| == 1 && units[0] != []
    && SectionOf(units[0]) == Some(units[0][1..]) && CrcReceiver.Accepts(units[0][1..])
    && ReadPat(units[0][1..]) == Some([Program(1, 0x1000)])
  }

  /** A map that, taken as it arrives, passes its check and lists both streams, but says it has two bytes more. */
  ghost predicate PmtArrives(units: seq<seq<byte>>, video: PayloadKind, audio: PayloadKind, videoType: byte,
                             audioType: byte)
  {
    && |units| == 1 && |units[0]| >= 4
    && SaidLength(units[0][1..]) == |units[0][1..]| + 2 && SectionOf(units[0]) == None
    && CrcReceiver.Accepts(units[0][1..])
    && TypeOf(video, videoType) && TypeOf(audio, audioType)
    && ReadPmt(units[0][1..]) ==
       Some(ProgramMap(1, 0x100, [Stream(videoType, 0x100, []), Stream(audioType, 0x101, Announced(audio))]))
  }

  lemma {:induction false} PatUnit()
    requires CrcReceiver.Accepts(PatSection())
    ensures PatArrives([[0] + PatSection()])
  {
    hide CrcReceiver.Accepts, PatSection, ReadPat, SectionOf, SaidLength;
    var s := PatSection();
    PatReads(s);
    SectionBehind(s);
    assert ([0] + s)[1..] == s && s[..|s|] == s;
  }

  lemma {:induction false} PmtUnit(video: PayloadKind, audio: PayloadKind)
    requires CrcReceiver.Accepts(PmtSection(StreamType(video), StreamType(audio)))
    ensures PmtArrives([[0] + PmtSection(StreamType(video), StreamType(audio))], video, audio, StreamType(video),
                       StreamType(audio))
  {
    hide CrcReceiver.Accepts, PmtSection, ReadPmt, SectionOf, SaidLength, AudioDescriptors;
    var s := PmtSection(StreamType(video), StreamType(audio));
    DescriptorsAre(audio);
    PmtIsLaid(StreamType(video), StreamType(audio));
    LaidReads(s, StreamType(video), StreamType(audio), AudioDescriptors(StreamType(audio)));
    SectionBehind(s);
    assert ([0] + s)[1..] == s;
  }

  /** What a receiver makes of the two tables. The program table is complete. The map's length field counts two bytes
      more than there are, so a receiver that goes by it never has that one complete. */
  lemma {:induction false} TablesArrive(tracks: Tracks, samples: seq<Sample>)
    returns (videoType: byte, audioType: byte)
    ensures var cells := AllCells(SegmentWrites(tracks, samples));
            && PatArrives(Units(cells, 0))
            && PmtArrives(Units(cells, 0x1000), tracks.video.payload, tracks.audio.payload, videoType, audioType)
  {
    hide SegmentWrites, AllCells, Units, PatSection, PmtSection, CrcReceiver.Accepts, PatArrives, PmtArrives;
    videoType, audioType := StreamType(tracks.video.payload), StreamType(tracks.audio.payload);
    TablesDemux(tracks, samples);
    TablesPassCheck(videoType, audioType);
    PatUnit();
    PmtUnit(tracks.video.payload, tracks.audio.payload);
  }
}
