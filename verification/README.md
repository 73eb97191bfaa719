# Verification of the program stream codec, the hook session and three smaller loops

This project models parts of lalmax and proves properties of the model. `dafny verify dfyconfig.toml` checks it.

**The MPEG program stream codec** (`gb28181/mpegps`, ISO/IEC 13818-1) is modelled in layers.

- `Bytes`, `BitReader`, `BitWriter`, `FieldCodec`, `Timestamp`: the bit cursor. What is read or written is stated in one
  view of a byte sequence, the number that n bits at a position spell.
- `PsFormat`: what the decoders make of the bytes at the cursor, as functions. `PackHeaders`, `SystemHeaders`,
  `StreamMaps`, `PesPackets`, `SkippedPackets`: the decoders and encoders themselves, proved against those functions and
  against a layout, with the round trips between the two. `Crc`, `StartCodes`: checksum and NAL units.
- `DemuxSpec`, `Demuxer`: the demuxer as functions on its state and as the class with its streams, cache and loop.
  `CodecGuess`: what it makes of streams that no map announces.
- `ChunkIndependence`: how a stream is cut into calls of `Input` does not matter. `StuckCache`: what an error does to the
  calls after it. `Conservation`: where the bytes of a video stream go.
- `MuxSpec`, `Muxer`: the muxer. `WireBytes`: its packets byte by byte. `Transparency`, `EndToEnd`, `Relay`:
  demultiplexing what was multiplexed.

**The hook session** (`hook`): `GopCache` is the ring of groups of pictures against the plain description "the last groups
of the stream"; `HookSpec` is the session as a state machine over events, with the delivery theorem over every
interleaving, and `HookKinds` says the same by the kinds of the messages; `HookSession` is the class.

**Smaller loops**: `Reassembly` (`gb28181/mediaserver/conn.go`), `PortPool` (`gb28181/avail_conn_pool.go`) and
`SafariPacker` (`rtc/packer.go`).

Callbacks are modelled as appending to a sequence: `OnFrame`, `OnPacket`, a subscriber's `OnMsg` and the packets
passed on by the connection. Go's fixed-width arithmetic is written out where it matters (`% 256`, `% 0x1_0000`,
`% U64`), and so is truncating division. A panic of the program (reading or slicing out of range) is what callers have to
avoid by a precondition, or an outcome of its own in the specification (`Crash`, `Panics`, `EmptyNalu`, `NoBytes`).

Where the code departs from what one would expect, the model follows the code:

- `UnRead` leaves the bit offset alone in one case; its exact effect, and that of a peek, are stated.
- A header cut in two loses its start code. With the marker bits of the standard in place this is harmless
  (`MarkedQuiet`); without them it is not (`MarkersMatter`).
- The end code leaves the cursor where it is, and the loop never returns: the outcome `Loops`, which the precondition
  of `Input` excludes.
- A PES packet without a time stamp inherits the last one, even from an attempt that only asked for more bytes.
- `Flush` hands over the last frame uncut, so a delimiter the muxer inserted shows up there: `FlushAfterRun` and
  `DelimiterShown` say exactly when, `FlushShowsAud` shows it on one frame.
- The check at the start of a reassembled stream lets in anything that agrees with the start code in one byte; a stream
  it refuses is refused for good.
- The Safari fragmenter drops the last byte of a frame whose length does not divide evenly.
- A limit on the cached groups makes late subscribers miss part of a long group; `GapFree` says exactly when, and
  `LimitLoses` shows it on a run.
- A subscriber can get a message twice: the audio header that it received while waiting, or a message of a codec that
  needs no header, which is cached as one all the same. `Repetition` says exactly when, `HeaderTwice` and `AudioTwice`
  show both.
- After an error at a pack or system header in a call that began with kept bytes, the cache keeps what was parsed, and the
  demuxer never gets past it (`StuckForever`).
- The checksum of a stream map does not cover the first two bytes of its start code, so that no map ever checks by
  ISO/IEC 13818-1 (`ProgramStreamMap.Encode`, `ZerosInFront`).

## Model

| member | source | states |
|---|---|---|
| `BitReader.BitStream.GetBits` | gb28181/mpegps/bitstream.go:53-86 | reading n bits gives the number those bits spell, most significant first, across byte boundaries, and moves the cursor by n |
| `BitReader.BitStream.SkipBits` | gb28181/mpegps/bitstream.go:101-111 | skipping moves the cursor by exactly n, forwards, or backwards when the remainder stays inside the current byte |
| `BitReader.BitStream.UnRead` | gb28181/mpegps/bitstream.go:176-190 | the exact place the cursor lands on: n bits back, or too far on by the bit offset when it is unaligned and whole bytes lie between |
| `BitReader.BitStream.NextBits` | gb28181/mpegps/bitstream.go:192-196 | peeking gives the next n bits and leaves the cursor, but for more than eight bits, not whole bytes, from an aligned cursor: then the bit offset of their end stays behind |
| `BitReader.BitStream.ReadUE` | gb28181/mpegps/bitstream.go:150-160 | an Exp-Golomb code is read as the value its bits stand for |
| `BitReader.UECode` | gb28181/mpegps/bitstream.go:150-160 | the value of an Exp-Golomb code is 2^z - 1 plus its z information bits |
| `BitReader.BitStream.ReadSE` | gb28181/mpegps/bitstream.go:163-170 | the signed code enumerates 0, 1, -1, 2, -2 in the order of the unsigned one |
| `BitWriter.BitStreamWriter.ExpandSpace` | gb28181/mpegps/bitstream.go:220-232 | growth gives room for n bits, keeps what is written, and keeps every bit behind the cursor zero |
| `BitWriter.BitStreamWriter.PutUint64` | gb28181/mpegps/bitstream.go:297-320 | the low n bits of v stand at the old cursor, everything in front of it is kept, everything behind is zero |
| `BitWriter.BitStreamWriter.PutBytes` | gb28181/mpegps/bitstream.go:265-272 | bytes are appended on a boundary and everything in front is kept |
| `BitWriter.BitStreamWriter.SetUint16` | gb28181/mpegps/bitstream.go:326-328 | two bytes are overwritten in place |
| `BitWriter.Patched` | gb28181/mpegps/bitstream.go:326-328 | patching a length sets that 16-bit field and leaves all fields on both sides alone |
| `BitWriter.BitStreamWriter.Bits` | gb28181/mpegps/bitstream.go:330-339 | what is handed out is everything written, rounded up to a byte |
| `BitWriter.BitStreamWriter.Reset` | gb28181/mpegps/bitstream.go:350-358 | the writer is as good as new, at the start of an all-zero buffer |
| `FieldCodec.PutFields` | gb28181/mpegps/bitstream.go:297-320 | a list of fields of any widths from 1 to 64 is laid out one behind the other |
| `FieldCodec.WriteThenRead` | gb28181/mpegps/bitstream.go:53-86 | writer and reader are inverse for every list of fields, from a writer that was used before and reset: each value comes back modulo 2^width |
| `Timestamp.StampRoundTrip` | gb28181/mpegps/pes_proto.go:325-351 | the three-part encoding of a 33-bit time stamp loses nothing |
| `PackHeaders.PsPackHeader.Decode` | gb28181/mpegps/ps_proto.go:95-156 | agrees with the parse of the bytes; when more are needed the cursor is where it was or exactly 4 bytes in |
| `PsFormat.PackVersions` | gb28181/mpegps/ps_proto.go:95-117 | the two versions of a pack header, by its fifth byte, and how long each is |
| `PackHeaders.PsPackHeader.Encode` | gb28181/mpegps/ps_proto.go:158-175 | lays out an MPEG-2 header of 14 bytes and its stuffing |
| `PackHeaders.PackRoundTrip` | gb28181/mpegps/ps_proto.go:95-175 | decoding an encoded header gives its fields back and consumes the bytes written |
| `SystemHeaders.SystemHeader.Decode` | gb28181/mpegps/ps_proto.go:270-312 | agrees with the parse; need-more leaves the cursor, a wrong length field is refused |
| `SystemHeaders.SystemHeader.Encode` | gb28181/mpegps/ps_proto.go:243-268 | lays out the header with the length patched in, over any list of streams |
| `SystemHeaders.SystemRoundTrip` | gb28181/mpegps/ps_proto.go:243-312 | round trip for stream ids from 0x80 on, whose first bit is what keeps the decoder in the list |
| `StreamMaps.ProgramStreamMap.Decode` | gb28181/mpegps/ps_proto.go:413-470 | agrees with the parse, with the 16-bit arithmetic that replaces the inner length field |
| `StreamMaps.ProgramStreamMap.Encode` | gb28181/mpegps/ps_proto.go:387-411 | lays out the map, patches its length, and appends a checksum with which the covered range checks to zero, but never the whole map, as the standard demands |
| `StreamMaps.MapRoundTrip` | gb28181/mpegps/ps_proto.go:387-470 | types and ids of every entry come back, and the decoder stops behind the checksum |
| `SkippedPackets.ProgramStreamDirectory.Decode` | gb28181/mpegps/ps_proto.go:476-491 | skips exactly the packet, or asks for more without moving |
| `SkippedPackets.CommonPesPacket.Decode` | gb28181/mpegps/ps_proto.go:498-511 | skips exactly the packet, or asks for more without moving |
| `PesPackets.PesPacket.Decode` | gb28181/mpegps/pes_proto.go:144-245 | agrees with the parse in every field; a packet without a time stamp keeps the one before; need-more leaves the cursor |
| `PesPackets.PesPacket.Encode` | gb28181/mpegps/pes_proto.go:307-362 | lays out start code, flags, stamps and payload |
| `PesPackets.PesRoundTrip` | gb28181/mpegps/pes_proto.go:144-362 | stream id, flags, both stamps modulo 2^33 and payload come back when the two lengths are consistent |
| `ChunkIndependence.NeedMoreCursor` | gb28181/mpegps/ps_demuxer.go:77-199 | asking for more bytes leaves the cursor in front of a packet of any kind, or 4 bytes in for a pack header |
| `Crc.CalcCrc32` | gb28181/mpegps/util.go:62-68 | the loop computes the specified register |
| `Crc.TableIsStandard` | gb28181/mpegps/util.go:16-61 | every one of the 256 table entries is its index shifted eight times through the register of ISO/IEC 13818-1, polynomial 0x04C11DB7, with the bytes in the opposite order |
| `Crc.CrcIsStandard` | gb28181/mpegps/util.go:62-68 | over any bytes and from any register the table-driven checksum is the bit-by-bit checksum of ISO/IEC 13818-1, with the bytes of the register swapped |
| `Crc.CrcConcat` | gb28181/mpegps/util.go:62-68 | the checksum of a concatenation is the second part chained from the first |
| `Crc.ZerosInFront` | gb28181/mpegps/ps_proto.go:405-410 | bytes that check to zero do not check by the standard with two zero bytes, as of a start code, in front |
| `Crc.CrcResidue` | gb28181/mpegps/ps_proto.go:405-410 | data followed by its checksum in little-endian order checks to zero |
| `Crc.AdvanceInjective` | gb28181/mpegps/util.go:62-68 | a zero-byte step never merges two registers |
| `Crc.BurstDetected` | gb28181/mpegps/util.go:62-68 | every change confined to four consecutive bytes changes the checksum |
| `StartCodes.FindStartCode` | gb28181/mpegps/util.go:77-89 | the first start code from an offset on, with the zero in front of it; none is overlooked |
| `StartCodes.UnitsPartition` | gb28181/mpegps/util.go:91-107 | splitting is a partition: adjacent units from the first start code to the end, none with a start code inside |
| `StartCodes.AllUnitsJoined` | gb28181/mpegps/util.go:91-107 | the bytes ahead of the first start code and the units, joined, are the buffer |
| `StartCodes.SplitFrame` | gb28181/mpegps/util.go:91-107 | the callback gets the bodies of those units, in order, up to the first for which it says to stop, or all |
| `StartCodes.FoundAgain` | gb28181/mpegps/util.go:108-115 | searching the start code again in a unit finds it at the very beginning |
| `StartCodes.MpegH264FindNALU` | gb28181/mpegps/util.go:117-133 | the zero-counting scan finds the first 00 00 01 that has two bytes behind it, and the size of the code with all zeros in front of it |
| `StartCodes.MpegH26xVerify` | gb28181/mpegps/util.go:136-186 | the cleared flag words give the codec all of whose parameter sets occur, if that is only one |
| `CodecGuess.GuessByBytes` | gb28181/mpegps/util.go:136-186 | exactly which bytes are taken for H.264, H.265, H.266 and MPEG-4: by the type numbers behind the first ten 00 00 01 |
| `CodecGuess.GuessHere` | gb28181/mpegps/util.go:170-174 | a sequence parameter set, a picture parameter set and an IDR slice are taken for H.264 |
| `CodecGuess.FiledByGuess` | gb28181/mpegps/ps_demuxer.go:162-177 | the first packet of a stream 0xE0 that no map announces, if it shows its codec, files the stream under 0x1B or 0x24 with that packet held |
| `CodecGuess.GuessedComesOut` | gb28181/mpegps/ps_demuxer.go:61-208 | two calls of Input with such a packet and one of another time: the units of the first packet come out under the guessed codec |
| `CodecGuess.CollectedForGuess` | gb28181/mpegps/ps_demuxer.go:163-166 | payloads are collected for the guess until they are more than 256 bytes |
| `CodecGuess.AudioGuess` | gb28181/mpegps/util.go:187-197 | audio of stream 0xC0 that no map announces is AAC if it is one ADTS frame of exactly its length, else G.711, and only if a video stream is known; any other unknown stream is ignored |
| `Demuxer.PsDemuxer.FlushUnits` | gb28181/mpegps/ps_demuxer.go:266-294 | emits all units of the collected buffer but the delimiters, with the stamps of the stream |
| `Demuxer.PsDemuxer.DemuxH26x` | gb28181/mpegps/ps_demuxer.go:262-301 | collects payloads of one time stamp and cuts up what was collected when another comes |
| `Demuxer.PsDemuxer.DemuxPespacket` | gb28181/mpegps/ps_demuxer.go:238-253 | what each codec does with a packet: 0x0F, 0x90 and 0x91 give it out as one frame at once, 0x1B and 0x24 collect, 0xFF keeps the packets of one time, any other codec drops it |
| `DemuxSpec.AudioStamps` | gb28181/mpegps/ps_demuxer.go:238-260 | the frame a packet of a known AAC or G.711 stream gives, with its own stamps, the inherited one, or the presentation stamp for a missing decoding stamp |
| `DemuxSpec.UnitGivenOut` | gb28181/mpegps/ps_demuxer.go:270-293 | a unit of a collected frame is given out, with its start code, unless its type number is 9 for H.264 or 35 for H.265 |
| `DemuxSpec.UnitsGivenOut` | gb28181/mpegps/ps_demuxer.go:270-293 | units are given out one after the other |
| `Demuxer.PsDemuxer.HandleMap` | gb28181/mpegps/ps_demuxer.go:112-129 | a map sets the codec of known streams and adds the others |
| `DemuxSpec.MapApplied` | gb28181/mpegps/ps_demuxer.go:116-125 | for every stream id: the last entry of a map for it gives its codec and keeps what was collected, a new id gets an empty stream, an id without an entry stays as it was |
| `Demuxer.PsDemuxer.HandlePes` | gb28181/mpegps/ps_demuxer.go:144-195 | a packet is decoded with the inherited stamp and delivered, or its codec is guessed |
| `Demuxer.PsDemuxer.TakeTurn` | gb28181/mpegps/ps_demuxer.go:89-199 | one turn of the loop is the turn of the specification, for every prefix code |
| `DemuxSpec.TurnByCode` | gb28181/mpegps/ps_demuxer.go:89-199 | which prefix codes are passed over by their length, changing nothing, which are headers, maps and PES packets, which one never ends, and that a system header needs a pack header before it |
| `DemuxSpec.TurnOnOther` | gb28181/mpegps/ps_demuxer.go:196-198 | bytes that are no start code are passed over one by one |
| `Demuxer.PsDemuxer.Input` | gb28181/mpegps/ps_demuxer.go:61-208 | state, cache, error and every call of OnFrame are those of the specification, and the loop terminates |
| `Demuxer.PsDemuxer.Flush` | gb28181/mpegps/ps_demuxer.go:210-219 | every stream that holds bytes is handed over once, uncut, and nothing is cleared |
| `DemuxSpec.TurnLength` | gb28181/mpegps/ps_demuxer.go:77-201 | a turn that goes on consumes a byte, one that waits leaves bytes, and only an end code goes on forever |
| `ChunkIndependence.TurnRepeats` | gb28181/mpegps/ps_demuxer.go:77-199 | a turn on the first part of its bytes does the same, or waits without having changed what the turn on all bytes does |
| `ChunkIndependence.MarkedQuiet` | gb28181/mpegps/ps_proto.go:119-140 | the marker bits keep a header cut in two from looking like the start of a packet |
| `ChunkIndependence.MarkersMatter` | gb28181/mpegps/ps_proto.go:119-140 | without marker bits two calls can hang on bytes that one call accepts |
| `ChunkIndependence.NoLengthMatters` | gb28181/mpegps/pes_proto.go:222-243 | an audio packet of length 0 takes whatever is there: fed in two calls it gives other frames than in one, or a failure, so it cannot be part of the theorem |
| `ChunkIndependence.FieldsMatter` | gb28181/mpegps/pes_proto.go:163-221 | every packet whose optional fields reach beyond its header, though readable as a whole, makes the program panic when it is cut behind its header |
| `ChunkIndependence.FieldsMatterHere` | gb28181/mpegps/pes_proto.go:163-221 | fourteen bytes of which one call makes no error and two calls make a panic |
| `ChunkIndependence.EntriesMatter` | gb28181/mpegps/ps_proto.go:438-470 | every map whose entries reach beyond it, though readable with what follows, is an error or a panic when it is cut behind its own bytes |
| `ChunkIndependence.EntriesMatterHere` | gb28181/mpegps/ps_proto.go:438-470 | a concrete map, the 16-bit count of whose bytes wraps, that one call reads and its first twenty bytes make an error |
| `ChunkIndependence.Resume` | gb28181/mpegps/ps_demuxer.go:61-208 | the bytes left over by one call, with the rest behind them, lead where all bytes lead |
| `ChunkIndependence.AnyChunks` | gb28181/mpegps/ps_demuxer.go:61-208 | any cutting of a good stream into calls gives the state and frames of a single call, and no error |
| `StuckCache.StuckForever` | gb28181/mpegps/ps_demuxer.go:61-87 | once a call that began with kept bytes has met a malformed pack or system header, no byte of any later call is looked at: over all later calls the same bytes are parsed again, the error is the same, and the cache grows by what is fed, unless the program panics |
| `StuckCache.StuckRun` | gb28181/mpegps/ps_demuxer.go:77-201 | bytes behind such a header make no difference to a pass over the buffer |
| `StuckCache.GivenAgain` | gb28181/mpegps/ps_demuxer.go:61-208 | each of those calls gives an audio packet in front of the bad header out once more |
| `StuckCache.StuckHere` | gb28181/mpegps/ps_demuxer.go:61-87 | two calls of five bytes in all after which every call, whatever it is fed, ends in the error |
| `Conservation.BytesConserved` | gb28181/mpegps/ps_demuxer.go:262-301 | over any run: bytes held at first and all payloads are, in order, the bytes of the record and those still held; frames are those of the record |
| `Conservation.LedgerRight` | gb28181/mpegps/ps_demuxer.go:262-301 | every stretch in the record is bytes without a start code ahead of the first one, a delimiter that was dropped, or a NAL unit that was given out |
| `Conservation.FlushRight` | gb28181/mpegps/ps_demuxer.go:266-294 | all units of one flush carry the same pts and dts |
| `Conservation.OneFrame` | gb28181/mpegps/ps_demuxer.go:262-301 | a frame in any number of packets of one time, or without a time, is collected whole and its units are given out with the stamps of the first packet when the next time comes |
| `Muxer.PsMuxer.AddStream` | gb28181/mpegps/ps_muxer.go:28-48 | the new tables and the id that is given out |
| `Muxer.PsMuxer.LookAtFrame` | gb28181/mpegps/ps_muxer.go:70-99 | the callback stops at the first delimiter or coded slice |
| `Muxer.PsMuxer.Write` | gb28181/mpegps/ps_muxer.go:50-152 | the packets handed to OnPacket, byte by byte and each with the pts at 90 kHz, and what becomes of the first-frame flag |
| `MuxSpec.PayloadsTile` | gb28181/mpegps/ps_muxer.go:115-150 | the payloads concatenate to the delimiter, if any, and the frame |
| `MuxSpec.PayloadSizes` | gb28181/mpegps/ps_muxer.go:134-143 | no payload is empty, every length fits 16 bits, all but the last packet are full |
| `MuxSpec.ScanByTypes` | gb28181/mpegps/ps_muxer.go:70-99 | what is seen of a frame, by the type numbers of its units: the first delimiter or coded slice decides |
| `EndToEnd.LookByTypes` | gb28181/mpegps/ps_muxer.go:70-99 | the same for every frame that can be sent |
| `Relay.StreamTable` | gb28181/mpegps/ps_muxer.go:16-48 | ids, types and buffer bounds of all streams that were added, and the counts and version of the tables, in numbers |
| `WireBytes.PackBytesAre` | gb28181/mpegps/ps_proto.go:158-175 | the 14 bytes of a pack header |
| `WireBytes.SystemBytesAre` | gb28181/mpegps/ps_proto.go:243-268 | the bytes of a system header, for any fields and streams |
| `WireBytes.MapBytesAre` | gb28181/mpegps/ps_proto.go:387-404 | the bytes of a stream map in front of its checksum |
| `WireBytes.PesBytesAre` | gb28181/mpegps/pes_proto.go:307-362 | the bytes of a PES packet, prefixes and marker bits of its time stamps included |
| `WireBytes.PacketBytesAre` | gb28181/mpegps/ps_muxer.go:100-147 | every packet of the muxer byte by byte: clock, rate, length, alignment flag, stamps, payload |
| `WireBytes.TablesIn` | gb28181/mpegps/ps_muxer.go:108-112 | where the two tables stand in a packet that has them |
| `Transparency.OpRun` | gb28181/mpegps/ps_muxer.go:50-152 | running the demuxer over the packets of one frame is handing over its pieces |
| `Transparency.WireTransparent` | gb28181/mpegps/ps_muxer.go:50-152 | the same over a whole run, whose bytes are moreover a good stream in the sense of chunk independence |
| `EndToEnd.UnitsBehindAud` | gb28181/mpegps/ps_muxer.go:125-133 | the units of a frame with a delimiter in front are the delimiter and the units of the frame |
| `EndToEnd.AudVanishes` | gb28181/mpegps/ps_demuxer.go:270-293 | the inserted delimiter is never emitted |
| `EndToEnd.MuxThenDemux` | gb28181/mpegps/ps_demuxer.go:61-208 | demultiplexing after multiplexing, over whole runs on any streams and any cutting of the bytes: all frames given out, in order across streams, are what each Write releases (the units of the frame before it in its stream, without delimiters and with the original stamps, or the audio frame), nothing else, and every video stream holds its last frame |
| `EndToEnd.MuxThenDemuxStream` | gb28181/mpegps/ps_demuxer.go:61-208 | hence for a stream whose codec no other has: its frames among all are exactly the units of its frames but the last, or its audio frames |
| `EndToEnd.ByCodec` | gb28181/mpegps/ps_demuxer.go:238-253 | the same by codec number: every frame of an AAC or G.711 stream, the units of all frames but the last of an H.264 or H.265 stream, and nothing of any other |
| `EndToEnd.AudioBytes` | gb28181/mpegps/ps_demuxer.go:255-260 | the bytes of the audio frames that come out are those of the frames written |
| `EndToEnd.SendableRun` | gb28181/mpegps/ps_muxer.go:50-152 | any list of frames with known ids, stamps that fit and non-empty NAL units makes a run |
| `EndToEnd.FlushAfterRun` | gb28181/mpegps/ps_demuxer.go:210-219 | flushing the demuxer after a run gives, for exactly the video streams that were written to, the last frame uncut with the delimiter the muxer inserted and its stamps |
| `EndToEnd.DelimiterShown` | gb28181/mpegps/ps_demuxer.go:210-219 | in what flushing gives after a run, the last frame of a video stream is the one written, with the delimiter in front exactly if of its delimiters and coded slices, by type number, the first is a slice |
| `Relay.TablesFit` | gb28181/mpegps/ps_muxer.go:28-48 | a muxer to which at most 16 video and 32 other streams of any codecs were added has ids in range, not shared, and matching tables |
| `Relay.WriteAll` | gb28181/mpegps/ps_muxer.go:50-152 | the muxer itself produces such a run |
| `Relay.Relay` | gb28181/mpegps/ps_demuxer.go:61-208 | the muxer feeding the demuxer packet by packet ends with the frames released by each Write |
| `Relay.RelayNew` | gb28181/mpegps/ps_muxer.go:28-152 | the same from nothing: streams of any codecs added to a new muxer, any frames written, the packets fed to a new demuxer |
| `Relay.FlushShowsAud` | gb28181/mpegps/ps_demuxer.go:210-219 | one slice written, relayed and flushed comes out with a delimiter in front of it |
| `GopCache.GroupsTile` | hook/gop_cache.go:51-78 | the groups are the stored messages from the first key frame on, each a key frame and no other |
| `GopCache.GopCache.Feed` | hook/gop_cache.go:32-58 | the ring with its headers steps as the plain cache does |
| `GopCache.RingNew` | hook/gop_cache.go:60-67 | a new group pushes the oldest one out of a full ring, one place of which stays empty |
| `GopCache.GopCache.GetGopCount` | hook/gop_cache.go:94-96 | the number of groups held |
| `GopCache.GopCache.GetGopDataAt` | hook/gop_cache.go:98-103 | the group at a position, or nothing |
| `GopCache.GopCache.Clear` | hook/gop_cache.go:87-92 | the groups are gone, the headers stay |
| `GopCache.FeedIsHistory` | hook/gop_cache.go:32-78 | one message turns the description of the history before into that of the history after |
| `GopCache.CacheIsLastGroups` | hook/gop_cache.go:19-103 | after any messages the cache holds the last groups, as many as there is room for, each cut to its first limit + 1 messages if there is a limit, non-empty and beginning with a key frame |
| `HookSession.HookSession.OnMsg` | hook/hooksession.go:93-145 | one message takes session, cache and every subscriber to the next state, in whatever order the subscribers are visited |
| `HookSession.HookSession.AddConsumer` | hook/hooksession.go:162-175 | a new subscriber, also for an id in use |
| `HookSession.HookSession.RemoveConsumer` | hook/hooksession.go:190-196 | the subscriber is gone, if there was one |
| `HookSpec.SessionIsHistory` | hook/hooksession.go:140-144 | cache and hasVideo are functions of the messages so far |
| `HookSpec.GroupsAndVideo` | hook/hooksession.go:101-142 | with room for a group, the cache holds one exactly if hasVideo |
| `HookSpec.ServeStep` | hook/hooksession.go:98-138 | one message keeps what is promised to a subscriber, message by message |
| `HookSpec.Delivery` | hook/hooksession.go:93-196 | over every interleaving of add, remove and message, all that a subscriber has received, in order: audio while waiting until the first message that can start it, then headers, the cached groups, and every audio and video message from there on, sequence headers included; nothing else |
| `HookSpec.SentWhen` | hook/hooksession.go:101-131 | a subscriber has video exactly if it has seen a message and there has been a key frame, or, without room for a group, if it has seen a key frame |
| `HookSpec.Gone` | hook/hooksession.go:190-196 | a removed subscriber is gone until it is added again |
| `HookKinds.HeadersByKind` | hook/gop_cache.go:32-50 | over every run the cached audio header is the last AAC header or message of a codec without one, the cached video header the last sequence header, and there is none exactly if there was no such message |
| `HookKinds.PreambleByKind` | hook/hooksession.go:103-108 | no other message, and no plain audio, is ever sent ahead as a header |
| `HookKinds.KeptByKind` | hook/gop_cache.go:51-78 | exactly which messages the cached groups hold without a limit: all but metadata and sequence headers, from the oldest key frame on that is among the last as many as there is room for |
| `HookKinds.StartByKind` | hook/hooksession.go:101-131 | the message that starts a subscriber, by kinds |
| `HookKinds.SentByKind` | hook/hooksession.go:101-131 | when a subscriber has video, by kinds |
| `HookKinds.ReceivedByKind` | hook/hooksession.go:93-145 | exactly which messages a subscriber has received, by their kinds and places in the stream, over every interleaving and for every limit |
| `HookSpec.GapFree` | hook/hooksession.go:109-131 | what a started subscriber has is the media of the stream from a key frame on, exactly if no media were cut off its cached groups |
| `HookSpec.LimitLoses` | hook/gop_cache.go:74-77 | with a limit on the groups a late subscriber misses a frame: a concrete run |
| `HookSpec.GapFreeDelivery` | hook/hooksession.go:93-145 | without a limit, over every interleaving, all that a subscriber has received: the audio of before the start, the cached headers, all that is stored from a key frame on, and all audio and video from the start on; behind the headers every medium from that key frame on comes once and in order |
| `HookSpec.Repetition` | hook/hooksession.go:93-138 | over every interleaving and for every limit: the positions in the stream of all messages a subscriber has received, in order, sequence headers included; one comes twice exactly if the last message cached as audio header was received while waiting or is in the cached groups |
| `HookSpec.HeaderAgainWhen` | hook/hooksession.go:103-118 | the same condition without a limit in terms of the stream: the subscriber saw that header with no key frame before it, or it is self-describing and not older than the oldest cached key frame |
| `HookSpec.HeaderTwice` | hook/hooksession.go:117-138 | a concrete run on which an AAC sequence header comes twice |
| `HookSpec.AudioTwice` | hook/hooksession.go:103-118 | a concrete run on which self-describing audio comes twice, the first time ahead of the key frame |
| `Reassembly.SplitPsPackets` | gb28181/mediaserver/conn.go:293-309 | the loop cuts in front of every start code but one at the very beginning |
| `Reassembly.PacketsTile` | gb28181/mediaserver/conn.go:293-309 | the packets are the data again, begin with start codes and have none inside |
| `Reassembly.PacketsByBytes` | gb28181/mediaserver/conn.go:293-309 | all packets but the first begin with 00 00 01 BA, and these bytes stand nowhere else in them |
| `Reassembly.PacketsExtend` | gb28181/mediaserver/conn.go:187-216 | more bytes change nothing in front of the last packet, even when a start code straddles the seam |
| `Reassembly.Conn.Demuxer` | gb28181/mediaserver/conn.go:187-216 | what is passed on and what is kept, and when data are refused: one byte of the first four that agrees with 00 00 01 BA is enough to be let in |
| `Reassembly.ChunksDoNotMatter` | gb28181/mediaserver/conn.go:187-216 | for every stream and cutting: the packets passed on and the bytes kept are the packets of the whole, unless all of its first four bytes differ from a start code, when nothing is ever passed on |
| `PortPool.FullRound` | gb28181/avail_conn_pool.go:85-91 | a round visits every port of the range once, 16-bit wrap included, and ends where it began |
| `PortPool.RangeIs` | gb28181/avail_conn_pool.go:85-91 | the range is min to max, or around the end of the port numbers, and behind max comes min |
| `PortPool.AvailConnPool.Acquire` | gb28181/avail_conn_pool.go:42-69 | the first port that can be bound from lastPort on; lastPort moves behind it and stays in the range |
| `PortPool.SearchComplete` | gb28181/avail_conn_pool.go:42-69 | fails exactly when no port of the range can be bound, and tries none twice |
| `PortPool.RoundRobin` | gb28181/avail_conn_pool.go:42-69 | calls one after the other with all ports free give the ports of the range in turn, none twice within a round, and a round gives them all |
| `SafariPacker.DoPacketNaluForSafariHevc` | rtc/packer.go:264-300 | the fragments are adjacent slices in order, of sizes that differ by at most one and never exceed 1200, with the right header bytes |
| `SafariPacker.Lossless` | rtc/packer.go:270-278 | nothing is lost exactly when the length divides evenly by the number of fragments, else the last byte is |
| `SafariPacker.LosesLastByte` | rtc/packer.go:276-278 | a frame of 1201 bytes loses its last byte |
| `SafariPacker.SafariHEVCRtpEncoder.Encode` | rtc/packer.go:201-262 | what is sent, in numbers: nothing of type 39; in front of types 16 to 23 the three parameter sets; everything with a start code of four bytes; in len/1200 + 1 packets, each behind its header byte 0 to 3; and when encoding fails |
| `SafariPacker.AnnexBLaid` | rtc/packer.go:209-228 | the bytes to be sent have every unit at the offset that the units before it give |
| `SafariPacker.LaidOnce` | rtc/packer.go:209-228 | and are determined by that |
| `SafariPacker.EncodeAll` | rtc/packer.go:201-262 | over all calls of one encoder the packets are numbered consecutively modulo 2^16, the last packet of each message has the marker, and times count from the first message |

## Left out

- MPEG-1 packets (`DecodeMpeg1`) and `guessCodecid`: once an MPEG-1 header has been seen, the outcome of a PES packet is
  `Mpeg1`, which the precondition of `Input` excludes; the MPEG-1 header itself is modelled.
- Encoding the clock reference field of a PES header: the writer is then not on a byte boundary and panics.
- Demuxer.PsDemuxer.Input: does not model runs that panic, reach an end code or an MPEG-1 packet; they are outcomes
  of the specification without a state.
- ChunkIndependence.AnyChunks: asks for streams whose packets are tidy: optional fields inside the header (else
  `FieldsMatter`), entries inside the map (else `EntriesMatter`), a length in every PES packet (else `NoLengthMatters`),
  marker bits or no code inside a header (else `MarkersMatter`).
- BitWriter.BitStreamWriter.PutByte: states the aligned case only, the one in which the method is right and in use.
- EndToEnd.MuxThenDemuxStream: asks for a codec that no other stream has, because a frame names only its codec;
  `MuxThenDemux` does not.
- Packet objects that the demuxer allocates on first use are allocated with it; being nil shows nowhere but in the
  pack header, for which it is modelled.
- Slices: handing out a slice copies. `Reset` clears the bytes that were handed to `OnPacket` before, and a cleared group
  of pictures reuses its array; neither is visible in the model.
- lal's predicates on messages and NAL units: key frames, sequence headers and self-describing audio are kinds of a message,
  disjoint by construction; NAL unit types are the bit fields of the standards; iterating over an AVCC message
  is a parameter.
- `sync.Map`, mutexes and goroutines: each call is one step. `Range` visits subscribers in any order.
- PortPool.AvailConnPool.Acquire: does not model a callback that answers differently for one port within a call, because no
  port is asked about twice.
- HookSession.HookSession.OnMsg: does not model the HLS server and the session manager it informs, which are other parts.
- The debug callback `OnPacket` of the demuxer, `PrettyPrint`, logging, dump files.
- Sockets, RTP reading, SIP, HTTP, WebRTC, SRT, ONVIF, HLS and fMP4: input and output, or wrappers of libraries.
