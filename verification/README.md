# Chroma Engine: verified model

A Dafny model of the parts of the Chroma Engine that carry loops, arithmetic and state, with proofs of what they are
for. `dafny verify dfyconfig.toml` checks everything.

Code that changes things step by step in the engine is a method here, with loops and, where it owns state, a class.
Each method is proved against a function, and the lemmas below say what that function means. A source is a byte
sequence with the numbers of the positional reads that fail, machine integers have their width and their saturation or
overflow checks, and a system call that can fail is told so by the step's choice.

| file | what it models |
|---|---|
| `Machine.dfy`, `Media.dfy` | machine integers, byte strings, division; media time, packets, windows |
| `PacketReads.dfy` | merged positional reads of packets under gap, span, amplification and memory limits |
| `MetadataCache.dfy`, `MetadataWalks.dfy` | the lookahead window over metadata, and what walks cost |
| `TransportStream.dfy`, `Pes.dfy` | MPEG-TS packets, PES packets, output timestamps (ISO/IEC 13818-1) |
| `Checksum.dfy`, `CrcReceiver.dfy` | the CRC-32 of program tables, and the decoder of ISO/IEC 13818-1 annex A |
| `AnnexB.dfy`, `NalChunks.dfy` | length-prefixed units to start codes, for AVC and HEVC, and listed |
| `MuxPayload.dfy`, `PayloadForms.dfy` | packets as elementary-stream payloads, and what they come to |
| `MuxSegment.dfy`, `SegmentPackets.dfy`, `ProgramTables.dfy` | the mux budget, one HLS segment, and what a receiver gets of its packets and tables |
| `Windows.dfy` | segment windows, collapsing, byte accounting |
| `SampleTableBoxes.dfy`, `SampleTableWritten.dfy`, `SampleTable.dfy` | MP4 sample tables, timing, packets, chunk plans (ISO/IEC 14496-12) |
| `Lacing.dfy`, `LacingLoops.dfy`, `LacedBlocks.dfy` | EBML numbers (section 4 of RFC 8794), lacing (section 10.3 of RFC 9559), whole blocks |
| `Publish.dfy`, `PublishRuns.dfy` | concurrent publication through temporary files and a no-replace hard link |
| `Fmp4Boxes.dfy`, `Fmp4Parse.dfy`, `Fmp4Sound.dfy`, `Fmp4Writer.dfy`, `Fmp4Patching.dfy`, `Fmp4RoundTrip.dfy`, `Fmp4Layout.dfy`, `Fmp4Samples.dfy`, `Fmp4Segment.dfy` | fragmented MP4: writer, validator and what it accepts, round trip, one HLS segment |
| `Visual.dfy`, `Glyphs.dfy`, `GlyphShapes.dfy` | flood fill, glyph and line counts, runs of text-like samples |
| `Text.dfy`, `Subtitles.dfy`, `SubRip.dfy`, `WebVtt.dfy`, `WebVttSegments.dfy` | SubRip and WebVTT parse and print, segmenting |

Where the code does not keep what one would expect, the condition under which it does is proved:

- Timestamps and clock references are masked to 29 bits where ISO/IEC 13818-1 (section 2.4.3.6) has 33. They come back
  exactly when they are below 2^29 (`Pes.PesClocksSurviveIff`, `TransportStream.PcrSurvivesIff`), and a stream's decode
  times rise at the receiver exactly when the clock does not turn over among them (`MuxSegment.DecodeTimesRiseIff`).
- The program map says in its length field that it has two bytes more than it has
  (src/hls/transport_stream.rs:198), so a receiver that takes sections by their length never has it complete; the
  program table's length is right (`ProgramTables.TablesArrive`).
- A length-prefixed H.264 sample is sent unconverted when its first bytes look like a start code
  (src/hls/transport_stream.rs:71-80). With lengths of four bytes that is when the first unit has one byte or 256 to
  511. The packet is right exactly when all units have one byte, or the first has neither length and the result fits
  64 MiB (`PayloadForms.AvcConvertsIff`).
- Publishers of identical bytes that all accept identical files can still refuse one another, when the file appears
  between a publisher's comparison and its check that the path is free. None ever does exactly when the path has the
  bytes already or there is only one of them (`PublishRuns.SameBytesNeverRefusedIff`).
- A publisher can report an error after its bytes became visible. Its own file is at the path exactly when its link put
  it there and the removal of its temporary file failed after that (`PublishRuns.ErrorAfterPublicationIff`), and every
  output has such a run (`PublishRuns.ErrorAfterPublicationHappens`).

## Model

| member | source | states |
|---|---|---|
| `PacketReads.MediaSource.ReadPacketsMode` | src/source.rs:583-669 | For any packet list (any order, overlaps, repeats, zero sizes): refused before the first read exactly as the checks say; otherwise exactly the selected bytes in list order through exactly the planned reads if and only if none of these reads fails, else an error at the first that fails, having paid for those before it; the bytes read never pass 2 times (playback) or 128 times (analysis) the selected payload |
| `PacketReads.AdmittedIff` | src/source.rs:588-616 | A packet list is admitted if and only if every packet lies in the source and the total fits both byte limits |
| `PacketReads.MediaSource.CheckBounds` | src/source.rs:592-610 | The checking loop: the first packet outside the source decides the error, else the exact sum of sizes |
| `PacketReads.MediaSource.ReadPlanned` | src/source.rs:617-669 | The merging loop performs the planned reads in order and returns the concatenation of the packets' ranges if and only if none of them fails; else it stops at the first that fails |
| `PacketReads.MediaSource.ReadSpan` | src/source.rs:654-666 | One merged read gives the same bytes as one read a packet, whether it is returned whole or scattered out of a scratch window |
| `PacketReads.PlanTiles` | src/source.rs:619-653 | Every planned read respects gap, span, amplification and scratch window and is maximal: the packet behind it starts before it ends, or crossing the gap to it would pass a limit; the reads cover the list without overlap |
| `PacketReads.PlanTilesFor` | src/source.rs:633-637 | With 256 bytes, 64 KiB and twice the payload in playback, 256 KiB, 1 MiB and 128 times in analysis |
| `PacketReads.PlanCost` | src/source.rs:619-653 | A whole plan reads at most amplification times the selected payload |
| `PacketReads.SelectedWithoutGaps` | src/source.rs:632-656 | A span equal to its payload has no gap: its packets are one byte range of the source |
| `PacketReads.MediaSource.ReadAt` | src/source.rs:543-567 | A positional read: exact bytes, or the error of the first limit passed, and what each outcome costs |
| `MetadataCache.RunAgrees` | src/source.rs:41-107 | Over every run of prefix reads, prefetches, window reads and failed fills the window equals the source or is empty, stays within the capacity limit, and every answer equals the plain positional read |
| `MetadataCache.StepAgrees` | src/source.rs:373-489 | One operation keeps that agreement, and a window that changed is no longer than the limit in force |
| `MetadataCache.PrefixAgrees` | src/source.rs:41-107 | The same for the prefix read with its exact and fallback fills |
| `MetadataCache.MetadataWindow.Read` | src/source.rs:42-107 | The method performs that prefix step on its fields; it reads the source once when the window does not serve the range and else not at all, and fails exactly when that read does |
| `MetadataCache.MetadataWindow.PrefetchMetadataSpan` | src/source.rs:396-444 | The prefetch step on the fields, with one read exactly when a range within the limit is not in the window; it fails exactly when that read does |
| `MetadataCache.MetadataWindow.ReadWindowUnvalidated` | src/source.rs:446-489 | The window read leaves the window as it is, reads the source once exactly when the window does not hold the bytes, and fails exactly when that read does |
| `MetadataWalks.DenseWalksAreCheap` | src/source.rs:72-84 | A walk forward over any number of headers, each at most 128 KiB behind the last, reads the source at most eight times and once more for every mebibyte, less part of a header, that it covers |
| `MetadataWalks.NextUse` | src/source.rs:72-107 | Each such read doubles the window up to 1 MiB or reaches the end of the source |
| `TransportStream.DemuxRoundTrip` | src/hls/transport_stream.rs:131-174 | For any sequence of writes: whole 188-byte packets that parse back, per-PID continuity counters that rise by one modulo 16 across calls, and per PID exactly what was sent, unit by unit |
| `TransportStream.CellsJoin` | src/hls/transport_stream.rs:131-174 | The payload pieces of one write, joined, are its payload, for every length |
| `TransportStream.CellsFields` | src/hls/transport_stream.rs:131-174 | Only the first packet of a write carries the unit start and the clock reference; counters follow on |
| `TransportStream.CellCount` | src/hls/transport_stream.rs:131-174 | The number of packets of a write, with 176 bytes in the first at worst and 184 in the others |
| `TransportStream.PacketRoundTrip` | src/hls/transport_stream.rs:140-172 | One packet parses back, with full payload, stuffing, or the one-byte adaptation field |
| `TransportStream.BuildPacket` | src/hls/transport_stream.rs:140-172 | The packet as the writer builds it, byte by byte, is the encoding of its fields |
| `TransportStream.TsMuxer.WriteTsPackets` | src/hls/transport_stream.rs:131-174 | The muxer's output stays the encoding of all writes so far, with its counters |
| `TransportStream.StartingWritesAreUnits` | src/hls/transport_stream.rs:111-129 | When every write starts a unit, a PID's units are exactly its payloads |
| `TransportStream.UnitClocksAreWritten` | src/hls/transport_stream.rs:111-129 | The first packet of each unit carries the clock of its write modulo 2^29, or none when it had none |
| `TransportStream.PcrSurvivesIff` | src/hls/transport_stream.rs:306-314 | The clock reference comes back if and only if it is below 2^29 |
| `TransportStream.PcrRoundTrip` | src/hls/transport_stream.rs:306-314 | The six clock bytes decode to the base they were written from |
| `Pes.PesRoundTrip` | src/hls/transport_stream.rs:274-295 | A PES packet parses back to its stream, payload and masked clocks; its length field counts what follows, or is zero when that does not fit |
| `Pes.PesClocksSurviveIff` | src/hls/transport_stream.rs:297-304 | Both timestamps come back if and only if both are below 2^29 |
| `Pes.PtsRoundTrip` | src/hls/transport_stream.rs:297-304 | The five timestamp bytes decode to the clock modulo 2^29 |
| `Pes.OutputTimesRise` | src/hls/transport_stream.rs:9-23 | Over any run the stamps of each stream rise, none moves back, and nothing is presented before it is decoded |
| `Pes.GoodTimesAreKept` | src/hls/transport_stream.rs:9-23 | Stamps that already rise, below the ceiling of 64 bits, pass unchanged |
| `Pes.OutputTimestampSanitizer.Sanitize` | src/hls/transport_stream.rs:10-22 | The method on its two slots: only the slot of the sample's stream changes |
| `Media.MillisAreWhole` | src/packet/mod.rs:295-319 | Milliseconds of a media time are the whole ones of the exact quotient; zero for a clock that stands still or a result past 64 bits |
| `Checksum.CheckPassesIff` | src/hls/transport_stream.rs:316-334 | Of any section and any four bytes behind it: the checksum over both leaves zero if and only if the four bytes are the section's checksum, highest byte first |
| `Checksum.DamageIsNoticed` | src/hls/transport_stream.rs:316-334 | Any change within four neighbouring bytes of a section and its checksum, wherever, makes the check fail |
| `Checksum.CrcLinear` | src/hls/transport_stream.rs:321-334 | The checksum of a difference is the difference of the checksums |
| `CrcReceiver.AcceptsIff` | src/hls/transport_stream.rs:316-334 | The decoder of annex A of ISO/IEC 13818-1, 32 cells of one bit that start as ones with the generator's terms listed, is left all zero by a section and four bytes if and only if those are the code's checksum |
| `CrcReceiver.CrcIsReceived` | src/hls/transport_stream.rs:321-334 | Bit by bit the code's register, fed byte by byte, is the cells of that decoder, whatever comes in |
| `Checksum.CrcOf` | src/hls/transport_stream.rs:321-334 | The loops over bytes and bits compute the checksum that decoder accepts |
| `Checksum.AppendCrc` | src/hls/transport_stream.rs:316-319 | Appends it to a section |
| `AnnexB.AvcChunkToAnnexB` | src/codec/h264.rs:180-222 | When the sizing pass succeeds the emitting pass cannot fail: the output is the start-coded units of all samples, of exactly the computed size, at most 64 MiB; else the sizing error |
| `AnnexB.ChunkSizedIff` | src/codec/h264.rs:180-210 | Sizing succeeds if and only if every sample parses and the output fits, and gives its exact length |
| `AnnexB.SizedIff` | src/codec/h264.rs:119-148 | The same for one sample from any offset |
| `AnnexB.ExpansionBound` | src/codec/h264.rs:159-178 | Conversion grows a sample by at most the factor of four over the prefix size |
| `AnnexB.ConversionIsListedUnits` | src/codec/h264.rs:44-71 | The output is the start-coded concatenation of exactly the ranges the listing returns |
| `NalChunks.ChunkConverts` | src/codec/h264.rs:180-222 | Of a chunk of samples written from any units: conversion gives their units behind start codes, in order |
| `NalChunks.ChunkIsListed` | src/codec/h264.rs:44-117 | And the listing gives every non-empty one: its sample, the place of its bytes, its length and the type in its first byte |
| `AnnexB.ParseAvcChunkNalus` | src/codec/h264.rs:44-71 | The listing: every non-empty unit in order; when something does not parse, the error of the first such thing in reading order, unless more than a million units come before it |
| `AnnexB.ParsesIff` | src/codec/h264.rs:44-71 | A chunk parses if and only if nothing in it is broken, and then the units before the first broken thing are all its units |
| `AnnexB.ListedFromIff` | src/codec/h264.rs:91-117 | From any offset of a sample the listing gives the units that read, or that there are too many, or the error of what does not parse |
| `AnnexB.AppendAnnexB` | src/codec/h264.rs:159-178 | Appends a whole sample or nothing |
| `AnnexB.HevcChunkToAnnexB` | src/codec/hevc.rs:199-220 | Succeeds if and only if all samples parse and the output fits; empty units get their start code too |
| `AnnexB.AppendHevcAnnexB` | src/codec/hevc.rs:101-141 | The one-pass append, with the limit checked unit by unit, comes to the same as sizing first |
| `MuxSegment.EstimateCovers` | src/hls/mod.rs:2244-2376 | The 188-byte packets of a window (tables, PES headers, parameter sets, Annex B or ADTS growth, stuffing) never take more than the estimate |
| `MuxSegment.MuxOneSegment` | src/hls/mod.rs:2314-2376 | Refuses, before any read, what the budget check refuses; else reads each packet of the window once and gives the packets of the collected samples, within the estimate and so within the output limit, or the first reading or conversion error |
| `MuxSegment.CollectedIff` | src/hls/mod.rs:2326-2348 | The samples are collected if and only if every packet of the window lies in the source, is within both read limits and converts, and none of the reads fails |
| `MuxPayload.ReadPayload` | src/hls/transport_stream.rs:25-69 | One positional read of a packet and its conversion, with the error of either |
| `MuxSegment.CheckMuxBudget` | src/hls/mod.rs:2244-2312 | The loop over saturating charges refuses exactly when the exact charge passes a limit, with the error of the limit |
| `MuxSegment.ChargeSaturates` | src/hls/mod.rs:2272-2294 | The saturating charge of a packet is the exact one, cut off at 64 bits |
| `MuxSegment.ChargeIsLeast` | src/hls/mod.rs:2254-2294 | A packet is charged the fewest transport packets that hold, at 176 bytes each, its grown payload, its parameter sets or header, and 64 bytes; in a fragment exactly 16 bytes over its size |
| `MuxSegment.SortIsStable` | src/hls/mod.rs:2326-2354 | Samples come out by decode time in milliseconds, at equal times the video first, equal ones in their old order |
| `MuxSegment.SegmentDemuxes` | src/hls/mod.rs:2326-2376 | A muxed segment demultiplexes to the video and the audio samples in decode order, one PES packet each, with payload and with both sanitised times modulo 2^29 |
| `SegmentPackets.SegmentGivesPackets` | src/hls/mod.rs:2314-2376 | What a receiver gets of a segment, in terms of the window's packets: on each stream one unit a packet, ordered by decode time, with that packet's converted bytes, its stream id, its own times in whole ticks of 90 kHz, moved only where they do not rise, and on the video the program clock; when they rise already, exactly its times modulo 2^29 |
| `SegmentPackets.SortedInOrder` | src/hls/mod.rs:2353 | The sorted samples of a stream are its samples by decode time, equal ones as they came |
| `SegmentPackets.TicksAreWhole` | src/hls/transport_stream.rs:336-346 | Ticks of a time are the whole ones of units times 90000 over the scale, the product cut at 64 bits; zero for a scale of zero |
| `MuxSegment.TablesDemux` | src/hls/transport_stream.rs:177-227 | It also gives back exactly the program table and the program map, and the decoder of annex A accepts what arrives of both |
| `ProgramTables.TablesArrive` | src/hls/transport_stream.rs:177-227 | Read back field by field: the program table is complete and names PID 0x1000 for program 1; the map lists the streams with their types, PIDs 0x100 and 0x101 and format identifiers, but its length field counts two bytes more than follow, so a receiver that goes by it never has it complete |
| `MuxSegment.DecodeTimesRiseIff` | src/hls/transport_stream.rs:297-304 | Sent times of a stream, below the 64-bit ceiling and less than a clock period apart, rise at the receiver if and only if the 29-bit clock does not turn over between two of them |
| `MuxSegment.EarlyTimesRiseIff` | src/hls/transport_stream.rs:297-304 | From a first time below 2^29 on: if and only if all of them are below it |
| `MuxSegment.WriteSegment` | src/hls/transport_stream.rs:89-129 | The writing loop gives the encoding of exactly these tables and samples |
| `MuxPayload.PayloadBound` | src/hls/transport_stream.rs:25-69 | No payload outgrows what the budget check allows its packet, whatever the codec |
| `PayloadForms.AvcPayload` | src/hls/transport_stream.rs:32-50 | An H.264 packet of any units, with lengths of 1 to 4 bytes: its units behind start codes, empty ones left out and a keyframe's parameter sets in front, up to 64 MiB; passed on unconverted if and only if it begins like a byte stream |
| `PayloadForms.TakenForStreamIff` | src/hls/transport_stream.rs:71-80 | With lengths of four bytes that happens if and only if the first unit has one byte or 256 to 511 |
| `PayloadForms.AvcConvertsIff` | src/hls/transport_stream.rs:32-50 | So with lengths of four bytes the byte stream of the units is sent if and only if the first has one byte and so have all others, or it has neither one byte nor 256 to 511 and the stream fits |
| `PayloadForms.HevcPayload` | src/hls/transport_stream.rs:57-64 | An H.265 packet of any units: all of them behind start codes, a keyframe's parameter sets in front, up to 64 MiB |
| `PayloadForms.AppendedIs` | src/codec/h264.rs:119-178 | Conversion undoes the length-prefixed form of any units that fit it, and fails only for the limit |
| `PayloadForms.AacPayload` | src/codec/aac.rs:59-81 | An AAC packet becomes a frame whose header reads back to the configured profile, rate and channels and to the frame's length; refused if and only if that length needs more than 13 bits or the rate has no index |
| `Windows.PlanSegmentWindows` | src/hls/mod.rs:2134-2160 | The planning loop over keyframes computes the plan the lemmas are about |
| `Windows.EngineWindowsTile` | src/hls/mod.rs:409-410 | With the targets the engine passes, raised to half a second first, the windows of any packet list tile: contiguous, numbered from zero, from the first presentation to the latest end or one millisecond behind it, none short unless alone, and each but the first starts when a keyframe is presented |
| `Windows.WindowsAreDue` | src/hls/mod.rs:2134-2192 | For packets in presentation order and a target of a second or more: every window but the last is at least the target long, and a keyframe inside a window lies the target or more behind its start only when less than a second is left behind it |
| `Windows.CutsAreDue` | src/hls/mod.rs:2134-2160 | Before collapsing, for any positive target: no keyframe inside a window lies the target or more behind its start |
| `Windows.WindowsReachTheEnd` | src/hls/mod.rs:2134-2160 | The last window ends where the latest packet ends, or a millisecond behind it |
| `Windows.WindowsStartOnKeyframes` | src/hls/mod.rs:2134-2192 | For any target, after collapsing too: every window but the first starts when a keyframe behind the first packet is presented |
| `Windows.WindowsTileIff` | src/hls/mod.rs:2134-2160 | Of the planning step alone: every packet list is tiled if and only if the target is positive |
| `Windows.WindowsTile` | src/hls/mod.rs:2134-2192 | That tiling, with both bounds of the last end, for one packet list and a positive target |
| `Windows.ZeroTargetExample` | src/hls/mod.rs:2134-2160 | A packet list the planning step would not tile with target zero, which its caller never passes |
| `Windows.CollapseShortWindows` | src/hls/mod.rs:2162-2192 | The collapsing loop computes the collapsed list |
| `Windows.CollapseKeepsChain` | src/hls/mod.rs:2162-2192 | Collapsing keeps the covered time, leaves no short window unless only one is left, and numbers from zero |
| `Windows.CollapseIsIdempotent` | src/hls/mod.rs:2162-2192 | Collapsing twice is collapsing once |
| `Windows.CollapseKeepsLongStarts` | src/hls/mod.rs:2162-2192 | Where a long window starts, the minimum or more behind the first start, a window starts after collapsing |
| `Windows.EveryPacketInOneWindow` | src/hls/mod.rs:2459-2468 | Every packet presented from the first one on, for a positive time, is in exactly one window |
| `Windows.TrackBytesByWindow` | src/hls/mod.rs:2217-2242 | The moving cursor with its binary-search fallback gives the plain sum of each window, cut off at 64 bits, for any packet order |
| `Windows.PartitionPoint` | src/hls/mod.rs:2217-2242 | The binary search finds the first window that ends after a time |
| `Windows.BytesAreConserved` | src/hls/mod.rs:2217-2242 | All windows together hold exactly the bytes of the packets presented in some window |
| `Windows.PlannedBytesAreConserved` | src/hls/mod.rs:2134-2242 | The planned windows together hold exactly the bytes of the packets presented from the first one's time to the last end, each packet once |
| `Windows.ChunkPlanWindows` | src/hls/mod.rs:2087-2108 | The loop over a chunk plan computes the stretched and collapsed windows |
| `Windows.ChunkWindowsTile` | src/hls/mod.rs:2087-2108 | Chunks that start later and later become a tiling of the time from the first start to the last end |
| `Windows.LongChunksStartWindows` | src/hls/mod.rs:2087-2108 | Where a chunk of a second or more starts, a second or more behind the first, a window starts |
| `SampleTable.NormalizedTiming` | src/container/mp4.rs:785-818 | Two passes with checked 128-bit sums: never fails on a parsed table, and gives the times the lemma is about |
| `SampleTable.TimingIsNormal` | src/container/mp4.rs:785-818 | Times are never negative, presentation minus decoding is the composition offset, decode times differ by the durations, and the least of all times is zero |
| `SampleTable.IntoPackets` | src/container/mp4.rs:735-783 | The nested loops over chunks and samples compute the packet list |
| `SampleTable.PacketCarriesSample` | src/container/mp4.rs:735-783 | Packet i is sample i: its size, times and keyframe flag |
| `SampleTable.ChunkIsOneRange` | src/container/mp4.rs:735-783 | The packets of every chunk are one byte range: the first at the chunk's offset, each next one behind the one before it |
| `SampleTable.ChunkHolds` | src/container/mp4.rs:735-783 | With rows in ascending order a chunk holds as many samples as the last row in force says, or as many as are left |
| `SampleTable.PacketCount` | src/container/mp4.rs:735-783 | As many packets as samples the chunks have room for |
| `SampleTable.PlanChunks` | src/container/mp4.rs:831-908 | The planning loop computes the chunk plan; empty for no samples or a target of zero |
| `SampleTable.PlanAgreesWithPackets` | src/container/mp4.rs:820-908 | Chunk ranges partition exactly the packets produced; every chunk after the first starts on a keyframe packet, at its time, the target or more after the one before |
| `SampleTable.PlanIsDue` | src/container/mp4.rs:831-908 | Every chunk goes as far as it may: no packet inside it is a keyframe the target or more behind its start, and its duration is the time from its first packet to its end |
| `SampleTable.PlanWindowsTile` | src/hls/mod.rs:2087-2108 | The windows drawn from such a plan tile from zero to the end of the last chunk |
| `SampleTable.AdvanceSampleToChunk` | src/container/mp4.rs:820-829 | From any entry: every entry passed has come into force for the chunk, and the next one has not |
| `SampleTable.EntryInForce` | src/container/mp4.rs:820-829 | With rows in ascending order the entry of a chunk is the last one whose first chunk is at most its number |
| `SampleTableBoxes.ParseSampleTable` | src/container/mp4.rs:942-1058 | A table is accepted if and only if each of its boxes is; then sizes, durations, offsets, keyframes, chunk offsets and rows are what their boxes say |
| `SampleTableBoxes.ParseWithDefaultLimits` | src/container/mp4.rs:942-1058 | The same with the default limits; such a table has the shape every reader relies on |
| `SampleTableWritten.TableRoundTrip` | src/container/mp4.rs:1060-1127 | However a table is written as boxes (rows of any runs, one size or many, offsets of either width, sync numbers or none), the boxes are accepted and what is read from them is the table |
| `SampleTableWritten.RunsRoundTrip` | src/container/mp4.rs:1060-1127 | Rows of count and value read back as their values written out, within the limits and when they come to one a sample |
| `SampleTableBoxes.ParseRuns` | src/container/mp4.rs:1060-1127 | Run-length rows expand to one value a sample, for durations and for offsets |
| `SampleTableBoxes.ParseStss` | src/container/mp4.rs:1129-1148 | Accepted if and only if every row names a sample; then exactly the named samples are keyframes |
| `SampleTableBoxes.ParseStsz` | src/container/mp4.rs:1168-1195 | Accepted exactly within the limits; then one size for all or each its own |
| `SampleTableBoxes.ParseStsc` | src/container/mp4.rs:1150-1166 | Accepted exactly with at least one row that fits; then the rows |
| `SampleTableBoxes.ParseChunkOffsets` | src/container/mp4.rs:1222-1250 | The offsets of four or eight bytes, accepted exactly when all rows fit |
| `Lacing.BlockTiles` | src/container/matroska.rs:1519-1669 | A parsed block's frames are as many as announced and lie end to end from behind the lace table to the end of the block |
| `Lacing.LaceFills` | src/container/matroska.rs:1569-1653 | Every lace table's sizes add up to the rest of the block |
| `Lacing.PrefixParsesAsBlock` | src/container/matroska.rs:1511-1544 | Parsing a prefix, whenever it succeeds, equals parsing the whole block |
| `Lacing.XiphInverse` | src/container/matroska.rs:1569-1596 | Parses back Xiph lacing of any frame sizes |
| `Lacing.FixedInverse` | src/container/matroska.rs:1598-1615 | Parses back fixed-size lacing |
| `Lacing.EbmlInverse` | src/container/matroska.rs:1617-1653 | Parses back EBML lacing of any frame sizes, whatever lengths the encoder chose for its numbers |
| `Lacing.VintRoundTrip` | src/container/matroska/ebml.rs:95-107 | A variable-size number of any length reads back, whatever follows |
| `Lacing.FramesAreEndToEnd` | src/container/matroska.rs:1655-1669 | Frames cover exactly the sum of their sizes, one behind the other |
| `LacedBlocks.BlockRoundTrip` | src/container/matroska.rs:1511-1669 | A block of any frames in any packing (none, Xiph, fixed, EBML with any number lengths) parses back to its track, time and keyframe flag, and each parsed frame is where the bytes of the written one are; it fails if and only if a frame is larger than 32 bits |
| `LacedBlocks.LaceInverse` | src/container/matroska.rs:1546-1653 | Whatever the packing, the lace table parses back to the frame sizes |
| `LacingLoops.ParseXiphLacedFrames` | src/container/matroska.rs:1569-1596 | The loops with their checked sums return the frames of the Xiph table |
| `LacingLoops.ParseFixedLacedFrames` | src/container/matroska.rs:1598-1615 | The same for fixed lacing |
| `LacingLoops.ParseEbmlLacedFrames` | src/container/matroska.rs:1617-1653 | The same for EBML lacing; sizes never leave a signed 64-bit number |
| `LacingLoops.FramesFromSizes` | src/container/matroska.rs:1655-1669 | The frame loop, with its checked offsets |
| `Publish.TargetNeverChanges` | src/output.rs:58-143 | Over every interleaving and every failing call: what is once at the path stays there with the same bytes |
| `Publish.TargetIsComplete` | src/output.rs:103-143 | A path that was empty never shows anything but all bytes of one publisher |
| `Publish.SuccessMeansPublished` | src/output.rs:58-143 | Whoever reports success finds its own bytes at the path; two successes mean equal bytes; of two that accept no file but their own at most one succeeds |
| `Publish.NoTempLeft` | src/output.rs:121-142 | When all have finished and no last removal failed, the directory has exactly the temporary files it had before |
| `Publish.TempsBelongToTheRunning` | src/output.rs:121-142 | At every moment each temporary file was there before or belongs to a publisher that has not finished, as long as no last removal failed |
| `PublishRuns.AloneSucceeds` | src/output.rs:58-143 | Undisturbed on an empty path, with nothing failing, a publisher finishes whatever its writes take and whatever names it draws; it fails exactly when the first 128 names are taken, and then changed nothing, else its bytes are at the path and the temporary names are as before |
| `PublishRuns.AloneRefusedOnlyByNames` | src/output.rs:58-143 | However early it finishes, such a publisher is refused only for taken names |
| `Publish.SameBytesRefusedOnlyByRace` | src/output.rs:103-143 | Publishers of the same bytes, nothing failing: what refuses one is the check that the path is free, or 128 taken names, never the link or the comparison after it |
| `PublishRuns.SameBytesNeverRefusedIff` | src/output.rs:58-143 | Publishers of the same bytes that accept an identical file, on a path that is empty or shows these bytes: no fault-free interleaving refuses one for what it sees at the path if and only if the path shows the bytes already or there is at most one publisher |
| `PublishRuns.SameBytesMayBeRefused` | src/output.rs:108-117 | The interleaving that refuses: for any two of any publishers on an empty path, empty outputs too, the first, which accepts an identical file, is refused because the other published between its comparison and its check |
| `PublishRuns.ExistingIsAccepted` | src/output.rs:103-117 | When the path already shows the bytes, every publisher of them that finishes has succeeded, without a temporary file |
| `PublishRuns.ErrorAfterPublicationIff` | src/output.rs:125-141 | In every run a publisher that reports an error has its own file at the path if and only if its own link put it there and its own first removal failed; for one that accepts no other file, if and only if that removal failed; whenever it failed the bytes are at the path |
| `PublishRuns.ErrorAfterPublicationHappens` | src/output.rs:125-141 | For every output there is a run that reports an error with the bytes at the path and no temporary file left |
| `PublishRuns.LoserMayFailToRemove` | src/output.rs:125-141 | Whatever the bytes, a publisher that lost the link to the same bytes can fail to remove its temporary file: an error, with the other publisher's file at the path |
| `Publish.ExistingFileMatchesParts` | src/output.rs:150-178 | The chunked comparison through one buffer answers whether the file is exactly the parts, and errs exactly when their length leaves 64 bits |
| `Publish.StaysGood` | src/output.rs:103-143 | One step of any publisher keeps its own invariant and spares what others rely on |
| `Fmp4RoundTrip.WrittenIffAcceptable` | src/fmp4/mod.rs:141-194 | A fragment is written if and only if there are tracks, sizes match payloads, every track keeps the sample rules, the last data offset fits 31 bits and the payload box 32 |
| `Fmp4RoundTrip.FragmentRoundTrip` | src/fmp4/mod.rs:242-253 | Reading a written fragment gives back its sequence number and each track: number, decode time, samples, and its payload through the patched offset; whole and header-only validation give the same, complete count |
| `Fmp4Layout.FragmentIsRead` | src/fmp4/mod.rs:240-253 | A reader that knows the standard alone (boxes by name, runs by their flags) finds in a written fragment its number, every track with its number, decode time and all four fields of each sample, the payloads in an mdat, and data offsets that lead to each |
| `Fmp4RoundTrip.WrittenValidates` | src/fmp4/validation.rs:11-54 | Whether or not the samples keep the rules, validating only the header the writer lays out and validating the whole fragment give the same result, which is a pass if and only if every track keeps the rules |
| `Fmp4Patching.WriteFragmentHeader` | src/fmp4/mod.rs:141-194 | The writer that patches sizes and offsets afterwards produces exactly that header, or the same error |
| `Fmp4Patching.FragmentWriter.PatchOffsets` | src/fmp4/mod.rs:189-191 | Every data offset lands in its own run and no other byte changes |
| `Fmp4Patching.FragmentWriter.WriteTraf` | src/fmp4/mod.rs:873-893 | Appends one track and notes where its offset goes |
| `Fmp4Patching.FragmentWriter.EndBox` | src/fmp4/mod.rs:907-917 | Patching the size in turns what was appended into a box |
| `Fmp4Patching.NewOwned` | src/fmp4/mod.rs:203-230 | Accepted if and only if payload and overhead fit the limit and the header is written; the published parts are then the fragment, within the limit |
| `Fmp4Patching.OverheadCovers` | src/fmp4/mod.rs:208-211 | The overhead formula covers the header that is written |
| `Fmp4Writer.TrunRoundTrip` | src/fmp4/validation.rs:215-250 | A written run inspects to the same samples and offset if it has at most two million samples, else to nothing |
| `Fmp4Writer.TrafHolds` | src/fmp4/validation.rs:148-161 | The walk finds a written track's header, decode time and run again |
| `Fmp4Boxes.BoxParses` | src/fmp4/mod.rs:907-930 | A written box parses back to its name and payload, whatever follows it |
| `Fmp4Boxes.FindTopLevelBox` | src/fmp4/validation.rs:128-141 | The walk finds the first box of a name and gives up at a malformed one |
| `Fmp4Boxes.ChildBoxPayload` | src/fmp4/validation.rs:148-161 | The same, returning the payload |
| `Fmp4Boxes.ChildBoxPayloads` | src/fmp4/validation.rs:163-184 | All payloads of a name, or none when any box is malformed |
| `Fmp4Parse.RunPassesIff` | src/fmp4/validation.rs:86-108 | A run passes if and only if every sample has a duration, a size and no negative offset, and neither its clock nor its bytes overflow |
| `Fmp4Parse.InspectRun` | src/fmp4/validation.rs:215-250 | The inspection loop computes the run |
| `Fmp4Sound.HeaderValidIff` | src/fmp4/validation.rs:28-126 | Of any header: valid if and only if it has a moof, ends in the start of a payload box of the given size, and its tracks are sound against the bytes to come |
| `Fmp4Parse.ValidateFragmentHeader` | src/fmp4/validation.rs:28-54 | The method computes that verdict, or the error of the first test that fails |
| `Fmp4Sound.MediaValidIff` | src/fmp4/validation.rs:11-126 | Of any bytes: valid if and only if there are a moof and a whole mdat, there is a track, every track has a decode time and usable samples that start on a sync sample, clocks and bytes fit 64 bits, and the data of the tracks lies in the mdat, in order and disjoint; the count is that of all tracks, cut off at 64 bits |
| `Fmp4Sound.FoldIff` | src/fmp4/validation.rs:56-126 | The walk over the tracks accepts exactly those, from any point on |
| `Fmp4Parse.ValidateMediaFragment` | src/fmp4/validation.rs:11-26 | The method computes that verdict, or the error of the first test that fails |
| `Fmp4Samples.SamplesFromPackets` | src/fmp4/mod.rs:255-306 | One sample a packet; all composition offsets moved up by the least amount that leaves none negative |
| `Fmp4Samples.MadeSamplesKeepRules` | src/fmp4/mod.rs:255-306 | Such samples keep a track's rules if and only if the packets have bytes, start on a keyframe, are not too many and do not run past the clock |
| `Fmp4Samples.OffsetsDifferAsBefore` | src/fmp4/mod.rs:290-303 | Offsets differ among themselves as before, as long as none is cut off |
| `Fmp4Samples.OffsetsAreTimes` | src/fmp4/mod.rs:269-303 | For packets in the track's clock an offset is presentation time less decode time plus one amount for all, none when no packet is presented before its decoding, else the least that leaves none negative |
| `Fmp4Samples.ShownAsPresented` | src/fmp4/mod.rs:255-306 | Decode time and offset together show the samples at their packets' presentation times, moved by that one amount |
| `Fmp4Samples.SampleDescribes` | src/fmp4/mod.rs:255-288 | A sample has the whole ticks of its packet's duration, one at least and 32 bits at most, its size, and the flags 0x02000000 for a keyframe and 0x01010000 for others, which the validator tells apart |
| `Fmp4Samples.RescaledTicks` | src/fmp4/mod.rs:956-963 | Rescaling gives the whole ticks of units times the new clock over the old, cut at 64 bits |
| `Fmp4Samples.RescaleMono` | src/fmp4/mod.rs:956-963 | Rescaling keeps the order of times |
| `Fmp4Samples.RescaleSame` | src/fmp4/mod.rs:956-963 | Rescaling into the same clock changes nothing |
| `Fmp4Segment.MuxFmp4Segment` | src/hls/mod.rs:2378-2424 | Refused exactly when the budget check refuses; without video or audio exactly when the window has none; a reading error exactly when a track does not pass the checks or one of the planned reads fails; else a segment exactly when its tracks are acceptable. It is 864 bytes under the estimate, within the limit, and reads back to its number and both tracks of the window, with their packets' bytes and times |
| `Fmp4Segment.TrackShows` | src/hls/mod.rs:2378-2424 | The samples a segment's track reads back to are shown at its packets' presentation times, moved by one amount for all |
| `Fmp4Segment.SegmentAcceptableIff` | src/hls/mod.rs:2378-2424 | A segment's tracks are acceptable if and only if their packets have bytes and start on a keyframe, counts and clocks have room, and the fragment fits its offsets |
| `Fmp4Segment.FragmentWithinEstimate` | src/hls/mod.rs:2289-2294 | The charge of 16 bytes a sample and the base of 1024 cover the fragment, with 864 to spare |
| `Fmp4Segment.FragmentCharge` | src/hls/mod.rs:2459-2468 | Filtering the window's packets and charging them in the check come to the same sum |
| `Visual.FloodFrom` | src/analysis/visual.rs:57-90 | A finished queue is exactly the 4-connected component of its seed, each pixel once, and the tracked bounds are its bounding box |
| `Glyphs.CountShapes` | src/analysis/visual.rs:48-105 | Every bright pixel is in exactly one shape, shapes come in scan order, glyph counts, areas and baseline bins are those of the shapes, and glyph pixels never outnumber bright ones |
| `Glyphs.ShapeOfPixel` | src/analysis/visual.rs:57-90 | The shape a bright pixel is in is exactly the pixels that pixel is connected to |
| `GlyphShapes.GlyphIff` | src/analysis/visual.rs:91-104 | A shape is a glyph if and only if it has 2 to 96 pixels a squared scale, touches 2 to 14 rows and 2 to 18 columns a scale, and covers an eighth to nine tenths of rows times columns |
| `GlyphShapes.TouchedRows` | src/analysis/visual.rs:57-92 | The height of a shape's box is the number of rows its pixels touch |
| `Glyphs.CountRows` | src/analysis/visual.rs:106-122 | The merging loop over baseline bins |
| `Glyphs.AlignedGlyphsAreGlyphs` | src/analysis/visual.rs:106-122 | No glyph counts for two lines, and every line has five |
| `GlyphShapes.NoMoreLines` | src/analysis/visual.rs:106-122 | The loop counts as many lines as can be: no choice of bins three apart, with five glyphs in each and the next one, has more |
| `GlyphShapes.LinesArePicked` | src/analysis/visual.rs:106-122 | And the lines counted are such bins, the aligned glyphs those that end there |
| `Glyphs.Candidates` | src/analysis/visual.rs:192-213 | Exactly the maximal runs of text-like samples without a gap over ten seconds, of four samples and twenty seconds at least, in order |
| `Subtitles.ParseUndoesRenderIff` | src/codec/subtitles.rs:28-73 | Parsing undoes rendering on a list of cues if and only if each starts before it ends and has trimmed text without blank lines, carriage returns or white space at a line's end |
| `Subtitles.RenderedParses` | src/codec/subtitles.rs:62-73 | On cues that may still start with white space parsing gives back their trimmed texts |
| `Subtitles.ParsedAreCueLike` | src/codec/subtitles.rs:354-375 | Whatever the input, parsed cues have those properties, but for white space at the start of the text |
| `Subtitles.TimestampRoundTrip` | src/codec/subtitles.rs:386-417 | Every 64-bit time reads back from its rendering |
| `SubRip.SubRipRoundTripIff` | src/codec/subtitles.rs:28-36 | SubRip text as other programs write it (numbered blocks, commas before milliseconds, any of the three line ends) parses to its cues if and only if each starts before it ends and has no blank line, no carriage return and no white space at a line's end |
| `SubRip.LooseStampParsesIff` | src/codec/subtitles.rs:386-417 | Hours, minutes, seconds of any size and a fraction of any length behind a comma or a point are read if and only if minutes and seconds are below sixty and the time fits 64 bits, and then as that time, the first three digits of the fraction as milliseconds |
| `SubRip.LooseTimingParses` | src/codec/subtitles.rs:377-384 | White space around the two times does not matter, nor does anything that follows white space behind the second |
| `SubRip.SmallText` | src/codec/subtitles.rs:28-36 | What such text looks like, letter by letter |
| `Subtitles.BlockRoundTrip` | src/codec/subtitles.rs:354-384 | A timing line and lines of text parse to that cue |
| `Subtitles.RenderCues` | src/codec/subtitles.rs:62-73 | The rendering loop |
| `WebVtt.SegmentWebVtt` | src/codec/subtitles.rs:95-164 | Refused exactly as judged; else segment i has the header and then, in cue order, exactly the cues that intersect its window |
| `WebVttSegments.SegmentParses` | src/codec/subtitles.rs:146-168 | Every segment parses back to exactly the cues that fall into its window, with their texts trimmed |
| `WebVttSegments.JudgedByWindow` | src/codec/subtitles.rs:98-133 | The verdict counted window by window instead of cue by cue: at most 100000 windows up to the latest end, two million cues in all of them together, and UTF-8 bytes of addresses and texts, 128 more for each, within the limit; errors in that order |
| `WebVtt.SegmentsTile` | src/codec/subtitles.rs:137-147 | Segments tile from zero to the latest end, indexed, none empty |
| `WebVtt.OutputWithinEstimate` | src/codec/subtitles.rs:114-133 | Bodies and addresses in UTF-8 stay within the estimate, and so within any limit below the 64-bit maximum |
| `WebVtt.Judged` | src/codec/subtitles.rs:95-133 | The saturating loop refuses by segments, then visits, then bytes, with the exact or saturated number |
| `WebVtt.WindowsOfCue` | src/codec/subtitles.rs:148-161 | The index range a cue is given out to is exactly the windows it intersects |

## Left out

- Files, processes, clocks, identity checks of sources, cancellation and deadlines: I/O around the logic.
- Output buffers allocated in advance: `read_packets_mode` fills one in place; here the bytes are appended to a sequence.
- Allocation failure: assumed not to happen; explicit size limits are kept.
- MetadataCache.MetadataWindow.Refill: the buffer it reuses is a sequence here, so partial fills of its memory are not visible.
- Codec strings, playlists, init segments, track metadata: branch tables with nothing unbounded to prove.
- HEVC and AVC decoder configuration records: parameter sets enter the mux as given bytes.
- Fmp4Samples.SamplesFromPackets: the builders from encoded frames and from chunk samples differ only in their checks and are not repeated.
- Matroska cue tables and cluster walks: only blocks and their lacing are modelled.
- Publish.ExistingFileMatchesParts: the file does not change during the comparison; in the interleaved model every chunk is read at its own step.
- Removal of temporary files by anyone but their publisher, and names that are not unique to one directory.
- Fractions of dark, bright and colored pixels, the sorted baseline concentration and the final verdict on a frame: thresholds over counts that are modelled.
- SubRip lines: line ends are cut at line feeds only; a carriage return before one is white space that trimming takes away.
- Subtitle decoding of MP4, ASS and native payloads, and the sidecar playlists.
- Engine admission, transcode sessions, native codecs and platform code.
