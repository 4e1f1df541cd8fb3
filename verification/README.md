# Verified models of the stream parsers and the recording store

Dafny models of the hardest parts of the media server, with proofs of what they promise over every input and
every run. Each part is a pure step function that says what the code does, the theorems about it, and
objects whose methods work as the source's methods do (loops, buffers, locked sections) and are proved to
take exactly those steps. What a step function means is pinned by laws of its own that name no part of it: in
bytes and bits for the formats, in single calls for the managers.

* **MPEG program streams** (`StartCode`, `NeedParser`, `PsPacks`, `PsMachine`, `PsParser`, `PsPrint`,
  `PsWriters`, `PsRoundTrip`, `PsBytes`, `PsErrors`, `PsFrame`, `PsFrameParser`, `PsRtp`, `PsMarkers`,
  `PsWeights`, `PsFailures`): the start-code search over 64-bit windows, the eleven-state parser, the writers,
  the grouping into frames, and the packaging of frames into RTP payloads. Parsing undoes printing under every
  chunking, and chunking never changes the result.
* **Index metadata** (`IndexRows`, `IndexMeta`, `IndexLaws`, `IndexCache`, `IndexQuery`, `IndexManager`): the
  queue of rows to be created, the table and the cache of its earliest rows, with the jobs that move rows
  between them as interleaved steps. In every run they are one ordered log, no row of which is lost, and a query
  in two steps is the naive filter of it; which runs keep the cache the beginning of the table is proved exactly.
* **File records** (`FileMeta`, `FileLaws`, `FileManager`): write-behind of file records through a database that may
  fail at any call.
* **The prefetching index reader** (`IndexGetter`, `CachedIndexGetter`): producer and consumer over a
  shared cache and two one-slot channels, in every interleaving.
* **The bitmap allocator** (`BitMap`): a tree of bytes that refines a set of allocated indexes.
* **The block writer** (`BlockWriter`, `BlockLaws`, `FileChannel`): buffers, the request queue, file rotation
  and the place of every index in its file.
* **H.264 and lines** (`H264`, `H264Parser`, `LineParser`): fragmentation into RTP payloads and
  reassembly by section 5.8 of RFC 6184, the start-code-prefixed NAL unit parser, and the line splitter.

`Options`, `Bytes` and `Sequences` hold what the parts share. `dafny verify dfyconfig.toml` checks all of it.

## Where the code does less than one might expect

The proofs follow the code; where a promise holds only under a condition, the exact condition is proved, and
an input or a run is given at which it fails.

* A PES header with an ES rate is parsed wrongly unless the bytes behind the rate happen to repeat it:
  the parser does not step over the rate (`PsPrint.EsRateDecodesIff`, `PsRoundTrip.PesParsesIff`;
  `PsFailures.EsRateIsLost`).
* The PES writer leaves part of an extension in its 16-byte buffer and fills its place with stuffing
  (`PsPrint.PrintIsEncodeIff`; `PsFailures.ExtensionIsLost`).
* The computed size of a PES header wraps above a header data length of 246, and that of a stream map
  above a packet length of 65529, so that the packaged metadata is cut (`PsRtp.SizesSufficeIff`;
  `PsFailures.HeaderSizeWraps`, `PsFailures.StreamMapSizeWraps`).
* The length of a system header wraps as well: 2 and 5 are taken for long ones (`PsFailures.ShortSysPassesIff`).
* A frame whose last PES has no data does not come back from its payloads (`PsRtp.PackagedFrameComesBackIff`;
  `PsFailures.EmptyLastPesIsPending`).
* A line with exactly the maximum number of raw bytes is accepted or rejected depending on the chunking
  (`LineParsers.ChunkingDoesNotMatterIff`; `LineParsers.CutBeforeLf`).
* A bitmap of capacity zero answers index 0 (`BitMaps.BitMap.Alloc`).
* A refill of the earliest-index cache reads the table outside of the lock. A row inserted before the read and
  reported behind the push is cached twice if the table is small (`IndexCache.GrowInBetweenIff`;
  `IndexCache.RowIsCachedTwice`). What is reported between read and push can leave rows out
  (`IndexCache.RunInOrderIff`, `IndexCache.GrowPushIff`; `IndexCache.DeletionBeforePushIff`,
  `IndexCache.ReportBeforePushIff`).
* An update of a file record does not clear fields in the table (`FileMeta.WriteBehindIff`;
  `FileMeta.ClearedFieldStays`).
* The numbers of files start again once none is in memory, and a deletion still due for the old file of a
  number removes the row of the new one (`FileMeta.AddKeepsIff`; `FileMeta.ReusedNumberIsLost`,
  `FileMeta.ReuseIsPossible`). A withdrawn update of the old file, while it is still listed, swallows updates of
  the new one (`FileManagers.FileManager.AddFile`; `FileManagers.WithdrawnSwallows`).
* A seek of the index reader with nothing cached sets the time and does nothing else. After the end was reached
  the rows from the new time are not read, and while a query is under way nobody asks for another one: the
  next `Get` waits for ever (`IndexGetters.SeekKeepsIff`, `IndexGetters.FalseEnd`, `IndexGetters.WaitsForEver`;
  `IndexGetters.SeekBackIsLost`, `IndexGetters.SeekMeanwhileIsLost`).
* A write can be answered with an error although its block is kept (`BlockWriter.WriteOutcome`).
* Fragmentation loses the forbidden bit, and a single packet with a type outside 1 to 23 is not read as a
  NAL unit of its own (`H264.PackagedComesBackIff`; `H264.ForbiddenBitIsLost`, `H264.FragmentTypeIsLost`).

## Hypotheses

* Declared lengths of a program stream may be anything. A length that would wrap the code's 8- or 16-bit
  arithmetic, or make it slice behind its bytes, is a run-time panic there and the error `Fault` here;
  what the server does after a panic is not part of this model. Go lets a slice grow into its capacity, so that
  a map length that is too long (media/ps/parser.go:202) can also end in a length error, depending on how the
  bytes were cut: `Fault` stands for both. The round trip is about packs whose lengths, flags and ids agree
  (`PsPrint.WellFormed`).
* Each pack is taken, and a fresh one set in its place, before the parser is called again.
* Rows of the index table come back in the order of their numbers. Intervals are added with their start
  not behind their end, and queries are claimed for rows whose start is before their end. Nothing is assumed of
  refills but for the order of the cache.
* A number is not given to a file while a deletion of it is due or under way. A database call writes
  the file as it is, or an earlier version of it while an update is due. At the start the file table holds the
  files in memory; the source loads at most as many as its queue takes (storage/meta/db-meta-manager.go:305)
  and leaves older rows alone.
* The index reader has one consumer, and the table does not change while it reads.
* A file that did not exist opens empty, seeking succeeds, a new file's record can be added, and at the
  start the last file on disk is as long as its record says; that it stays so is proved.
* Pools of packs and packets give what is asked for; the pool of write buffers may refuse.
* The first chunk of a PES packet has at least five bytes when NAL units are parsed.

## Model

| member | source | states |
|---|---|---|
| `StartCode.StartCodeFinder.Find` | media/ps/start-code.go:14-77 | finds exactly the first `00 00 01 xx` in the carried bytes followed by the data and returns what follows it; without one, it carries the last bytes, at most three |
| `StartCode.StartCodeFinder.FindInWindows` | media/ps/start-code.go:20-57 | the loop over overlapping 64-bit windows: stops at the first start code with the position behind it, or leaves a stretch shorter than a window |
| `StartCode.FirstPosition` | media/ps/start-code.go:59-72 | the 32-bit loop over a short stretch finds the least position of a start code, -1 exactly if there is none |
| `StartCode.WindowStep` | media/ps/start-code.go:22-54 | the shift-and-mask test of one window answers for all its positions at once, so the window may move on without skipping a start code |
| `StartCode.FoundStable` | media/ps/start-code.go:14-77 | more bytes behind a found start code do not change which one is found |
| `StartCode.CarryEnough` | media/ps/start-code.go:14-77 | the carried bytes decide about later bytes as all the earlier bytes would |
| `StartCode.ChunkedSearchIsNaiveScan` | media/ps/start-code.go:14-77 | under every chunking the start codes found are those of a naive scan of the whole stream |
| `NeedParsers.NeedParser.Parse` | parser/need-parser.go:35-46 | collects bytes over any number of calls until the need is met; exactly then it answers, with exactly that many bytes, and the rest remains |
| `NeedParsers.NeedParser.Skip` | parser/need-parser.go:20-28 | drops exactly the needed number of bytes over any number of calls |
| `NeedParsers.NeedParser.Merge` | parser/need-parser.go:57-66 | gives the collected pieces as one string |
| `PsMachine.AdvanceStaysInDomain` | media/ps/parser.go:426-484 | every pass of the parser consumes bytes or lowers a rank, and keeps the invariant of the eleven states |
| `PsMachine.RunUnfold` | media/ps/parser.go:426-484 | parsing a stretch is one pass and then parsing what it leaves, an error or a pack in between included |
| `PsMachine.RunSplit` | media/ps/parser.go:426-484 | parsing a stream in two parts gives the packs, the errors and the final state of parsing it in one |
| `PsMachine.ChunkingDoesNotMatter` | media/ps/parser.go:426-484 | for any bytes, well-formed or not, the packs, the errors (a slice out of bounds counted as one, with the reset behind each) and the final state depend on the concatenated bytes only |
| `PsBytes.PackHeaderBytes` | media/ps/parser.go:113-129 | the bytes 00 00 01 BA, ten more whose last one says n in its low three bits, and n bytes of any value give that pack header, and parsing goes on behind them |
| `PsBytes.SystemHeaderBytes` | media/ps/parser.go:131-164 | the bytes 00 00 01 BB, a length of two bytes, six bytes and three for each stream, as many as the length says, give that system header, and are what is written for it |
| `PsBytes.SystemHeaderError` | media/ps/parser.go:131-146 | a length of at least six that is no multiple of three is an error behind the six bytes |
| `PsBytes.StreamMapBytes` | media/ps/parser.go:166-235 | the bytes 00 00 01 BC, a length, two bytes, descriptors and entries, each behind two bytes of length, and four bytes of checksum give that stream map, and are what is written for it |
| `PsBytes.StreamMapError` | media/ps/parser.go:166-179 | a stream map length below ten is an error right behind it |
| `PsErrors.StreamMapOutcome` | media/ps/parser.go:181-236 | what becomes of any stream map body, by the two lengths in it: too short is an error, or a fault where only the sum wrapped to sixteen bits fits; too long is an error; entries that do not fit are their own; else the map comes out |
| `PsErrors.EntriesOutcome` | media/ps/parser.go:202-223 | what becomes of the entries: fewer than four bytes, or an entry that runs over the end, are an error, or a fault if its end wraps |
| `PsErrors.WrongSizesError` | media/ps/parser.go:166-236 | a stream map shorter than its parts, on the wire: an error behind its bytes, and parsing goes on there |
| `PsBytes.PlainPesBytes` | media/ps/parser.go:237-263 | behind the start codes BE, BF, F0, F1, F2, F8 and FF, and a length of two bytes, all is data |
| `PsBytes.PesLengthIsError` | media/ps/parser.go:237-263 | behind any other start code but BA, BB and BC, a length below three is an error |
| `PsBytes.HeaderDataIsError` | media/ps/parser.go:265-280 | and so is one that does not hold the header data, behind the three fixed bytes |
| `PsBytes.PesBytes` | media/ps/parser.go:282-424 | a PES packet bit by bit: time stamps of five bytes by the two high flags, a clock reference of six, a rate of three with nothing behind it, one byte each for trick mode and copy info, two of checksum, any stuffing, and the data |
| `PsBytes.PesExtensionBytes` | media/ps/parser.go:333-404 | and the same with an extension: its flags, sixteen bytes of private data, a pack header behind its length, two bytes each of counter and buffer size, and a last field behind its length |
| `PsErrors.FieldsTooLong` | media/ps/parser.go:282-342 | a PES header whose flags ask for more bytes than its header data has is an error |
| `PsErrors.FieldsTooLongError` | media/ps/parser.go:265-342 | the same on the wire: the error comes behind the header data, and parsing goes on there |
| `PsErrors.FieldsFromRate` | media/ps/parser.go:314-343 | behind an ES rate the small fields are taken out of the rate itself, and four bytes of them are a fault |
| `PsErrors.CountedOutcome` | media/ps/parser.go:356-404 | an extension field with its length in front that runs over the header data is an error, or a fault if its end wraps to eight bits |
| `PsParser.Parser.Parse` | media/ps/parser.go:426-484 | stops at the first pack or error; its answer followed by the run over the remaining bytes is the run over all of them |
| `PsParser.Parser.StepOnce` | media/ps/parser.go:426-484 | one pass through the switch over the eleven states takes the step of the state machine |
| `PsParser.Parser.FindCode` | media/ps/parser.go:88-111 | goes from a start code to the state that reads its pack |
| `PsParser.Parser.ReadPsh` | media/ps/parser.go:113-121 | reads the ten bytes of a pack header |
| `PsParser.Parser.SkipStuffing` | media/ps/parser.go:123-129 | skips the stuffing behind a pack header before the header is complete |
| `PsParser.Parser.ReadSys` | media/ps/parser.go:131-146 | reads a system header up to its stream infos; a length that leaves no whole number of infos is an error, and so is one below six, but for 2 and 5, which wrap to stream infos of 65532 and 65535 bytes |
| `PsFailures.ShortSysPassesIff` | media/ps/parser.go:136-139 | of the lengths of a system header below six, exactly 2 and 5 pass the check, and 65532 or 65535 bytes of stream infos are then waited for |
| `PsParser.Parser.ReadSysStreamInfos` | media/ps/parser.go:148-164 | reads the stream infos of a system header |
| `PsParser.Parser.ReadPsmPacketLength` | media/ps/parser.go:166-179 | reads the length of a stream map; below ten it is an error |
| `PsParser.Parser.ReadPsmHeader` | media/ps/parser.go:181-235 | reads a stream map, with its errors for lengths that do not fit |
| `PsParser.Parser.ReadPesPacketLength` | media/ps/parser.go:237-263 | reads the length of a PES packet; ids without a header go on to the data |
| `PsParser.Parser.ReadHeaderDataLength` | media/ps/parser.go:265-280 | reads the fixed part of a PES header; a length that does not hold its header data is an error |
| `PsParser.Parser.ReadPesHeader` | media/ps/parser.go:282-412 | decodes the optional fields of a PES header |
| `PsParser.Parser.ReadPacketData` | media/ps/parser.go:414-424 | collects the data of a PES packet in the pieces it came in |
| `PsParser.Parser.Reset` | media/ps/parser.go:45-62 | returns to the search for a start code with nothing carried and no pack |
| `PsParser.Parser.TakePack` | media/ps/parser.go:491-504 | gives the complete pack, and none behind start code 0 |
| `PsParser.ReadSysInfos` | media/ps/parser.go:148-164 | the loop over three-byte entries gives the stream infos that the bytes hold |
| `PsParser.ReadInfos` | media/ps/parser.go:181-235 | the loop over the entries of a stream map gives the infos that the bytes hold, or reports that an entry runs over the end |
| `PsPrint.SysInfosDecode` | media/ps/sys.go:22-33 | decoding the printed stream infos gives them back |
| `PsPrint.InfosDecode` | media/ps/psm.go:35-50 | decoding the printed entries of a stream map gives them back |
| `PsPrint.PsmDecodes` | media/ps/psm.go:102-126 | decoding the body of a printed stream map gives it back |
| `PsPrint.ExtensionDecodes` | media/ps/parser.go:333-404 | decoding a PES extension laid out as the standard has it gives it back, with what follows |
| `PsPrint.EsRateDecodesIff` | media/ps/parser.go:311-317 | with an ES rate, a header decodes to itself exactly if the bytes behind the rate repeat it: the code does not step over the rate |
| `PsPrint.PlainFieldsDecodeIff` | media/ps/parser.go:282-412 | without an ES rate, a header decodes to itself exactly if its extension bytes are there |
| `PsPrint.PrintIsEncodeIff` | media/ps/pes.go:295-380 | the written header is the layout of the standard exactly if it has no extension, the extension ends in a field of its own, or it has private data or a pack header and its counter and buffer bytes are all 0xff: other extension bytes are left unflushed in the buffer, and stuffing is written in their place |
| `PsPrint.FlushedIff` | media/ps/pes.go:343-364 | this condition on the fields of an extension holds exactly if the bytes its writer leaves behind in the buffer are all 0xff |
| `PsPrint.PrintedDataDecodesIff` | media/ps/pes.go:295-380 | a written header decodes to itself exactly if, with an ES rate, the fields behind the rate repeat its bytes, and without one, its extension is of that kind |
| `PsBytes.PackHeaderWritten` | media/ps/psh.go:42-63 | a pack header is written with as many bytes FF behind it as its low three bits say |
| `PsBytes.PesWritten` | media/ps/pes.go:295-380 | a PES packet without extension is written byte by byte in that order, with bytes FF up to the declared length |
| `PsBytes.PesExtensionWritten` | media/ps/pes.go:295-380 | and one whose extension ends in a field of its own with all of that extension |
| `PsWriters.Writer.Write` | media/ps/io.go:34-42 | appends what fits of the bytes and says how much that was |
| `PsWriters.WritePsh` | media/ps/psh.go:53-63 | writes the printed pack header and its stuffing, as far as it fits |
| `PsWriters.WriteSys` | media/ps/sys.go:90-107 | writes the printed system header, as far as it fits |
| `PsWriters.WritePsm` | media/ps/psm.go:102-126 | writes the printed stream map, as far as it fits |
| `PsWriters.WritePesHeader` | media/ps/pes.go:295-380 | writes the printed PES header, its flush order and its stuffing loop included, as far as it fits, and answers an error exactly if its fields take more than the declared length |
| `PsRoundTrip.PackParses` | media/ps/parser.go:426-484 | a printed well-formed pack comes back whatever follows it; with nothing behind its empty last part it stays pending |
| `PsRoundTrip.PesParsesIff` | media/ps/parser.go:237-424 | a PES pack with consistent lengths and flags comes back exactly if, with an ES rate, the fields behind the rate repeat its bytes, and without one, no extension bytes are left behind by the writer |
| `PsFailures.EsRateIsLost` | media/ps/parser.go:311-317 | a header with an ES rate and a trick mode byte that does not come back |
| `PsFailures.RepeatedEsRateComesBack` | media/ps/parser.go:311-317 | a header with an ES rate whose trick mode byte repeats the first byte of the rate comes back |
| `PsFailures.ExtensionIsLost` | media/ps/pes.go:343-364 | a header with an extension of only its flag byte is not written as the standard has it and does not come back |
| `PsRoundTrip.ListParses` | media/ps/parser.go:426-484 | a printed list of well-formed packs comes back in order, and the rest is parsed from the start state |
| `PsRoundTrip.ParseUndoesPrint` | media/ps/parser.go:88-484 | for every list of well-formed packs and every chunking of their printed bytes, parsing gives the packs back in order; only a last pack with an empty last part waits for one more byte |
| `PsFrames.FramesAreSegments` | media/ps/frame-parser.go:249-343 | packs before the first pack header are dropped; the rest is cut at the headers into segments, each giving one frame with every pack in its place or one duplicate error |
| `PsFrames.NoErrorNoLoss` | media/ps/frame-parser.go:249-328 | there is no duplicate error exactly if a segment has at most one system header and one stream map, so its frame leaves none out |
| `PsFrames.GroupSplit` | media/ps/frame-parser.go:249-328 | grouping the packs of two stretches one after the other is grouping all of them |
| `PsFrameParser.FramesIgnoreChunking` | media/ps/frame-parser.go:249-328 | the frames, the errors and the current frame depend on the bytes and not on the chunks |
| `PsFrameParser.FrameParser.Parse` | media/ps/frame-parser.go:249-328 | stops at the first complete frame or error; its answer followed by the frames of the remaining bytes are the frames of all the bytes |
| `PsFrameParser.FrameParser.AddPack` | media/ps/frame-parser.go:200-328 | a pack goes into the current frame, starts the next one and completes it, or is a duplicate error |
| `PsFrameParser.FrameParser.Complete` | media/ps/frame-parser.go:337-344 | makes the current frame the complete one, if there is one |
| `PsFrameParser.FrameParser.Take` | media/ps/frame-parser.go:366-372 | hands over the complete frame |
| `PsRtp.RtpPackager.Package` | media/ps/rtp-packager.go:102-150 | the packets of a frame: before each PES its metadata, then its data in pieces; a frame without PES gives none |
| `PsRtp.RtpPackager.PackagePesData` | media/ps/rtp-packager.go:51-100 | the data of a PES, in whatever pieces it came, goes into full packets and a last shorter one, marked at the end of its stream |
| `PsRtp.RtpPackager.PackageMetaData` | media/ps/rtp-packager.go:31-49 | metadata goes into packets of at most the limit |
| `PsRtp.RtpPackager.PrintMeta` | media/ps/rtp-packager.go:102-150 | the metadata written into a buffer of the computed size is the printed metadata cut to that size |
| `PsRtp.PayloadsBounded` | media/ps/rtp-packager.go:31-150 | every payload is non-empty and at most the limit |
| `PsMarkers.DataPacket` | media/ps/rtp-packager.go:51-100 | packet by packet of the data of a PES: a full piece or the last one, marked exactly if it is the last one and no PES of that stream id comes behind |
| `PsMarkers.MetaPacket` | media/ps/rtp-packager.go:31-49 | packet by packet of the metadata: a full piece or the last one, never marked |
| `PsMarkers.MarkedIff` | media/ps/rtp-packager.go:112-147 | a packet of a frame is marked exactly if it is the last one of the data of a PES behind which none of that stream id comes |
| `PsMarkers.NothingBehindMarker` | media/ps/rtp-packager.go:112-147 | a stream id has at most one marked packet, and no packet of its data comes behind it |
| `PsRtp.PayloadsAreFrameIff` | media/ps/rtp-packager.go:102-150 | the payloads concatenate to the serialised frame exactly if it has a PES and the computed sizes cover the metadata |
| `PsRtp.SizesSufficeIff` | media/ps/pes.go:288-293 | the computed sizes cover the metadata exactly if no header data length exceeds 246 and the stream map length is below 65530: beyond that the size arithmetic wraps |
| `PsFailures.HeaderSizeWraps` | media/ps/pes.go:288-293 | a well-formed frame with a header data length of 247, whose payloads are not the frame: the computed size is 0 |
| `PsFailures.StreamMapSizeWraps` | media/ps/psm.go:95-100 | a well-formed frame with a stream map of 65530 bytes, whose payloads are not the frame: the computed size is 0 |
| `PsRtp.PackagedFrameComesBackIff` | media/ps/rtp-packager.go:102-150 | feeding the payloads to the frame parser one by one makes the frame its current one, with no error, exactly if it has a last PES with data and no size computed for its metadata wraps; a last PES without data is still pending, and of cut metadata too few bytes arrive |
| `PsRtp.CutFrameIsLost` | media/ps/rtp-packager.go:102-150 | a well-formed frame that is the current one after its payloads was not cut |
| `PsWeights.FrameWeighs` | media/ps/frame-parser.go:249-328 | whatever a stream holds and however it is cut, a frame put together from it takes, by the lengths of its packs, no more bytes than the stream has |
| `PsWeights.RunWeighs` | media/ps/parser.go:426-484 | the packs parsed from any stretch take no more bytes than it has, with what was pending in front of it |
| `PsFailures.EmptyLastPesIsPending` | media/ps/rtp-packager.go:102-150 | a well-formed frame whose last PES has no data does not come back from its payloads |
| `BitMaps.ByteFreed` | storage/file/allocator/bit-map.go:26-47 | the position of the lowest clear bit of a byte, -1 exactly for a full byte |
| `BitMaps.BitMap.constructor` | storage/file/allocator/bit-map.go:13-24 | a new tree is valid and has nothing allocated |
| `BitMaps.BitMap.AllocIndex` | storage/file/allocator/bit-map.go:67-84 | reports whether the index was free and adds exactly it, although the way up stops at the first byte that is not full; a parent bit stays set exactly for a full child byte, and the padding stays set |
| `BitMaps.BitMap.Free` | storage/file/allocator/bit-map.go:94-111 | reports whether the index was allocated and removes exactly it, although the way up stops at the first byte that was not full |
| `BitMaps.BitMap.AllocAll` | storage/file/allocator/bit-map.go:86-92 | allocates every index |
| `BitMaps.BitMap.Alloc` | storage/file/allocator/bit-map.go:49-65 | takes the least free index, and answers -1 exactly if there is none; with capacity zero it answers 0 |
| `BitMaps.BitMap.FindFree` | storage/file/allocator/bit-map.go:49-65 | the walk down the levels finds the least free index, -1 exactly for a full map |
| `BitMaps.BitMap.FullRootIsFull` | storage/file/allocator/bit-map.go:49-65 | a full top byte means that every index is allocated |
| `LineParsers.ChunkingDoesNotMatterIff` | parser/line-parser.go:24-94 | all chunkings of a stream give its lines and its size errors exactly if no line has as many raw bytes as the limit |
| `LineParsers.OneChunk` | parser/line-parser.go:24-94 | a stream in one chunk gives its lines, each without one trailing carriage return, and one error for each line that is too long |
| `LineParsers.ChunksGiveLines` | parser/line-parser.go:24-94 | with no line of exactly the limit, any chunks that follow what was seen so far give the further lines of the whole stream |
| `LineParsers.CutBeforeLf` | parser/line-parser.go:39-93 | a line of exactly the limit comes out differently when the stream is cut in front of its line feed |
| `LineParsers.LineBytes` | parser/line-parser.go:39-73 | a line ends at a byte 10, one byte 13 in front of it is taken off and no more, and more than max bytes in front of the 10 are one error |
| `LineParsers.NoLineBytes` | parser/line-parser.go:75-93 | without a byte 10 there is no line, and one error from max bytes on |
| `LineParsers.LineParser.Parse` | parser/line-parser.go:24-94 | one call takes the step of the parser on values: a line, an error, or neither, and what remains |
| `LineParsers.LineParser.AcceptLine` | parser/line-parser.go:39-73 | the line is what was cached and what stands in front of the line feed, without one trailing carriage return, whether it ends in the cache or in the chunk |
| `LineParsers.LineParser.Reset` | parser/line-parser.go:105-109 | forgets the line under way |
| `IndexRows.IndexChecker.Check` | storage/index-checker.go:21-53 | one check: order of the interval, then number and time against the bounds, which it moves along |
| `IndexRows.PassesIff` | storage/index-checker.go:21-53 | a row passes exactly if its interval is in order and number and time lie within the bounds there are |
| `IndexRows.CheckLeaves` | storage/index-checker.go:21-53 | how a check moves the lower bounds, also for rows beyond an upper one, and under which error a row that does not pass is counted |
| `IndexRows.IndexChecker.Keep` | storage/meta/db-meta-manager.go:1034-1037 | keeps the rows that pass, in order |
| `IndexRows.PassedAreOrdered` | storage/index-checker.go:21-53 | whatever rows come in, those that pass have rising numbers, do not overlap and lie within the bounds (numbers and end times not zero, which stands for no bound) |
| `IndexRows.FilterKeepsAllIff` | storage/index-checker.go:21-53 | the filter drops nothing exactly if the rows are in order and within the bounds |
| `IndexRows.OverlapIsRange` | storage/meta/db-meta-manager.go:974-1001 | of ordered rows, those that overlap an interval are the range that two binary searches delimit |
| `IndexRows.HitIff` | storage/meta/db-meta-manager.go:974-1001 | a row overlaps an interval exactly if some moment is in both |
| `IndexRows.Search` | storage/meta/db-meta-manager.go:977-984 | binary search gives the first position at which a monotone condition holds |
| `IndexMeta.CorrectedFits` | storage/meta/db-meta-manager.go:890-912 | a corrected interval keeps its length and gets the next number; it moves with the channel offset, and further exactly as far as the end of the last one, which the offset then remembers |
| `IndexMeta.AddExtendsHistory` | storage/meta/db-meta-manager.go:914-944 | AddIndex adds a row, a placeholder, or only makes the last row longer, and leaves all other rows alone |
| `IndexLaws.StoredRow` | storage/meta/db-meta-manager.go:885-944 | the row that is stored, field by field: the next number, the interval moved by the channel offset or to the end of the last row; for the last place of the queue a row in state 1 that points to no file; then only a later end |
| `IndexLaws.OffsetIsShift` | storage/meta/db-meta-manager.go:897-912 | the channel offset is afterwards how far the stored row was moved |
| `IndexLaws.DistanceKept` | storage/meta/db-meta-manager.go:885-912 | two intervals added one after the other keep their distance, however the clock had jumped before |
| `IndexMeta.AddKeeps` | storage/meta/db-meta-manager.go:885-953 | AddIndex keeps the invariant: rising numbers, no overlap, the latest index being the last row, a full queue ending in a placeholder |
| `IndexMeta.InsertKeeps` | storage/meta/db-meta-manager.go:530-553 | the insertion of the picked row puts it at the end of the table, behind all rows reported before |
| `IndexMeta.CompleteCreateKeeps` | storage/meta/db-meta-manager.go:520-528 | the report of an insertion takes the inserted row off the queue and adds it to the reported ones |
| `IndexMeta.RemoveKeeps` | storage/meta/db-meta-manager.go:582-605 | the deletion of the picked row takes it, and no other, out of the table |
| `IndexMeta.CompleteDeleteKeeps` | storage/meta/db-meta-manager.go:571-580 | the report of a deletion keeps the invariant and all rows |
| `IndexLaws.DeleteMovesFirst` | storage/meta/db-meta-manager.go:823-832 | after DeleteIndex, FirstIndex gives the row behind the one it gave before |
| `IndexLaws.DeleteMarks` | storage/meta/db-meta-manager.go:955-963 | DeleteIndex marks one more cached row as long as there is one that is not |
| `IndexLaws.DeletionRound` | storage/meta/db-meta-manager.go:559-605 | a round of the deletion job takes the first row out of the table and the cache, and nothing else |
| `IndexLaws.InsertionRound` | storage/meta/db-meta-manager.go:506-556 | a round of the insertion job moves the head of the queue to the end of the table, and of a cache that counts as whole |
| `IndexCache.GrowFills` | storage/meta/db-meta-manager.go:415-470 | a refill with nothing in between leaves in the cache exactly the first rows of the table, up to its capacity, a row in flight included |
| `IndexCache.GrowKeepsIff` | storage/meta/db-meta-manager.go:415-470 | such a refill keeps the cache in order exactly if no inserted row waits for its report, or the cache is full without it |
| `IndexCache.GrowPushIff` | storage/meta/db-meta-manager.go:443-470 | the push of a refill, whatever happened since its look and its read, leaves the cache in order exactly if it brings it to as many rows as there are by the reports of insertions and deletions, up to its capacity |
| `IndexCache.ClearRunKeeps` | storage/meta/db-meta-manager.go:415-963 | every run in which no insertion and no deletion is reported between the look and the push of a refill, and none reads while an insertion waits for its report, keeps the cache the beginning of the table, and whole where it says so, whatever else is added, inserted and deleted meanwhile |
| `IndexCache.StepKeepsIff` | storage/meta/db-meta-manager.go:415-963 | in every state a step keeps the cache in order exactly if it is not the report of an insertion into a cache that counts as whole while a refill is under way that could take the row again, and not a push that leaves a wrong number of rows |
| `IndexCache.RunInOrderIff` | storage/meta/db-meta-manager.go:415-963 | the runs that keep the cache in order all along are exactly those of such steps |
| `IndexCache.DeletionBeforePushIff` | storage/meta/db-meta-manager.go:415-470 | after a deletion reported between read and push, a refill that would have fitted leaves the cache in order exactly if there were no more rows than it can hold; otherwise it ends up short of its capacity, counting as whole |
| `IndexCache.ReportBeforePushIff` | storage/meta/db-meta-manager.go:415-470 | after an insertion reported between read and push, while the cache may lack rows, a refill that would have fitted leaves the cache in order exactly if there were enough rows to fill it; otherwise the row is missing |
| `IndexMeta.LoadedOk` | storage/meta/db-meta-manager.go:398-475 | the state after start satisfies the invariant over any ordered table |
| `IndexMeta.StepKeeps` | storage/meta/db-meta-manager.go:415-963 | every step of every job, whatever the others did in between, keeps the invariant: rising numbers, no overlap, a table that holds in order what was inserted and not deleted; no row is lost or changed, and only AddIndex adds any |
| `IndexMeta.RunKeeps` | storage/meta/db-meta-manager.go:415-963 | every run of the jobs, disturbed refills included, keeps the invariant, and no row that was added is lost or changed in it, but for a placeholder that comes to stand for more |
| `IndexMeta.RowsStay` | storage/meta/db-meta-manager.go:415-963 | in every run each row reported as inserted is in the table, in its place, exactly until it is deleted |
| `IndexMeta.AddedStaysCovered` | storage/meta/db-meta-manager.go:885-953 | whatever happens later, a corrected interval stays covered by one row; a row added with room in the queue stays as it was added, one that came in as dropped as long as nothing is merged into it, and the first one that finds no room leaves a placeholder that points to no file |
| `IndexMeta.InsertedIsPopped` | storage/meta/db-meta-manager.go:506-556 | in every run the row inserted into the table is the row that leaves the queue, whatever was added, merged or deleted in between |
| `IndexMeta.FullQueueEndsInPlaceholder` | storage/meta/db-meta-manager.go:919-927 | in every run a full queue ends in a placeholder, so the panic is not reached |
| `IndexCache.FirstIsFirstLive` | storage/meta/db-meta-manager.go:823-832 | FirstIndex gives the first row of the table not waiting for deletion, reports none only if there is none, and does not know only if the cache may lack rows |
| `IndexCache.FirstIndexInRuns` | storage/meta/db-meta-manager.go:415-963 | so it is in every run from the start in which refills are left alone, and there rows are deleted in their order |
| `IndexCache.GrowInBetweenIff` | storage/meta/db-meta-manager.go:415-470 | a refill between an insertion and its report leaves the cache in order, once the row is reported, exactly if the table is too large for the cache; otherwise the row is cached twice |
| `IndexCache.RowIsCachedTwice` | storage/meta/db-meta-manager.go:415-470 | with an empty table, the first row inserted is cached twice if the cache is refilled before the insertion is reported |
| `IndexQueries.FindIsFilter` | storage/meta/db-meta-manager.go:965-1056 | a query in two steps, with any steps of the jobs in between, disturbed refills included, gives the first rows up to the limit that overlap the interval, out of the rows older than the queue and the queue; with an empty queue, out of the table as it is read |
| `IndexQueries.FindIsFilterOfLog` | storage/meta/db-meta-manager.go:965-1056 | while nothing is deleted, a query that finds rows in the queue gives the naive filter of the whole log as it was at its first step |
| `IndexQueries.TwoStepAnswer` | storage/meta/db-meta-manager.go:1006-1056 | the rows read from the table, filtered and followed by those of the queue, are the naive filter of both, none twice and none skipped |
| `IndexQueries.TableMeets` | storage/meta/db-meta-manager.go:965-1056 | whatever moves from the queue to the table meanwhile starts no earlier than the queue that the query has seen |
| `IndexQueries.VisibleIsLog` | storage/meta/db-meta-manager.go:965-1056 | at the moment of the look, what a query can see is the log, the row in flight counted once |
| `IndexManagers.IndexManager.constructor` | storage/meta/db-meta-manager.go:143-184 | raises the capacities to their minimum and loads the latest index and the cache |
| `IndexManagers.IndexManager.Correct` | storage/meta/db-meta-manager.go:885-912 | corrects number and interval of a new row and moves the channel offset along |
| `IndexManagers.IndexManager.AddIndex` | storage/meta/db-meta-manager.go:885-953 | takes the step that adds a row; the panic branch cannot be reached |
| `IndexManagers.IndexManager.PickCreated` | storage/meta/db-meta-manager.go:506-518 | takes the head of the queue to be inserted |
| `IndexManagers.IndexManager.InsertPicked` | storage/meta/db-meta-manager.go:530-553 | inserts the picked row into the table |
| `IndexManagers.IndexManager.CompleteCreate` | storage/meta/db-meta-manager.go:520-528 | pops the queue and, if all rows are cached, caches the row; the cache stays in order exactly if no refill could take the row again |
| `IndexManagers.IndexManager.CreateIndex` | storage/meta/db-meta-manager.go:506-556 | without another job in between, moves the whole queue to the table, in order |
| `IndexManagers.IndexManager.DeleteIndex` | storage/meta/db-meta-manager.go:955-963 | marks one more cached row for deletion, if there is one |
| `IndexManagers.IndexManager.PickDeleted` | storage/meta/db-meta-manager.go:559-569 | takes the head of the cache to be deleted |
| `IndexManagers.IndexManager.RemovePicked` | storage/meta/db-meta-manager.go:582-605 | deletes the picked row from the table |
| `IndexManagers.IndexManager.CompleteDelete` | storage/meta/db-meta-manager.go:571-580 | pops the cache and asks for a refill exactly if rows may be missing and less than half is left |
| `IndexManagers.IndexManager.GrowEarliestIndexes` | storage/meta/db-meta-manager.go:415-470 | reads the rows behind the cache and pushes those that pass the order filter, with no other job in between; with no insertion waiting for its report, the cache stays in order |
| `IndexManagers.IndexManager.GrowLook` | storage/meta/db-meta-manager.go:416-433 | notes, under the lock, where the cache ends and how much room it has |
| `IndexManagers.IndexManager.GrowRead` | storage/meta/db-meta-manager.go:434-442 | reads that many rows behind that place, without the lock |
| `IndexManagers.IndexManager.GrowPush` | storage/meta/db-meta-manager.go:443-470 | under the lock again, the loop pushes the rows that pass the order filter until the cache is full; the cache stays in order exactly if it then has as many rows as there are |
| `IndexManagers.IndexManager.FirstIndex` | storage/meta/db-meta-manager.go:823-832 | answers the first row not waiting for deletion, or that there is none, if the cache is in order |
| `IndexManagers.IndexManager.LookAtQueue` | storage/meta/db-meta-manager.go:972-1010 | two binary searches decide what the naive filter of the queue and its start decide |
| `IndexManagers.IndexManager.PutTogether` | storage/meta/db-meta-manager.go:1028-1056 | filters the rows read, puts those of the queue behind and keeps the first ones up to the limit |
| `IndexManagers.IndexManager.FindIndexes` | storage/meta/db-meta-manager.go:965-1056 | with no other job in between, gives the first rows of the log that overlap the interval |
| `FileMeta.MergeIsLaterIff` | storage/meta/db-meta-manager.go:643-674 | an update by record leaves the new version in the table exactly if it clears no field |
| `FileMeta.StepKeeps` | storage/meta/db-meta-manager.go:610-701 | every addition, update and deletion and every answer of the database keeps what is known of the row of each file: due to be created or updated, or written last without clearing a field of the row, and then equal to the file |
| `FileMeta.RunKeeps` | storage/meta/db-meta-manager.go:610-701 | every run keeps it |
| `FileMeta.WriteBehindIff` | storage/meta/db-meta-manager.go:610-701 | with calls failing or succeeding arbitrarily, once nothing is left to tell the database the table has exactly the files in memory, and each row is its file exactly if the last write of the file cleared no field that the row had |
| `FileMeta.WriteBehindCatchesUp` | storage/meta/db-meta-manager.go:610-701 | in particular, the table is the files in memory if no update clears a field |
| `FileLaws.CreationReaches` | storage/meta/db-meta-manager.go:610-641 | a file added is what the table has once its creation was picked and has succeeded |
| `FileLaws.UpdateReaches` | storage/meta/db-meta-manager.go:643-674 | an update of a created file is merged into its row once it was picked and has succeeded, and is the row exactly if it clears no field |
| `FileLaws.UpdateIsCreated` | storage/meta/db-meta-manager.go:1209-1226 | an update before the creation is what is created |
| `FileLaws.DeletionReaches` | storage/meta/db-meta-manager.go:676-701 | a deleted file is gone from the table once its deletion was picked and has succeeded, and no other row is |
| `FileLaws.FailureIsDue` | storage/meta/db-meta-manager.go:627-698 | a failed call changes no row and is due again |
| `FileLaws.Updated` | storage/meta/db-meta-manager.go:1209-1226 | an update replaces the file of its number and no other |
| `FileLaws.Deleted` | storage/meta/db-meta-manager.go:1228-1252 | a deletion takes exactly the files up to its number |
| `FileLaws.MergedFields` | storage/meta/db-meta-manager.go:643-674 | field by field, an update by record writes what is not zero or empty |
| `FileMeta.ClearedFieldStays` | storage/meta/db-meta-manager.go:643-674 | an update to size zero does not reach the table |
| `FileMeta.NextIsNewIff` | storage/meta/db-meta-manager.go:1160-1168 | the number of a new file has not been used before exactly if the greatest one ever is that of a file in memory, or none was used |
| `FileMeta.AddKeepsIff` | storage/meta/db-meta-manager.go:1186-1207 | a number above those in memory, used before or not, may be given to a file exactly if no deletion of it is due or under way |
| `FileMeta.ReusedNumberIsLost` | storage/meta/db-meta-manager.go:1160-1252 | from every state with no other call under way, a number given while its deletion is due loses its file: the creation succeeds, the deletion removes the row, and nothing is due for the file any more |
| `FileMeta.ReuseIsPossible` | storage/meta/db-meta-manager.go:1160-1252 | once the only file in memory is deleted, the next one gets its number again while the deletion is due |
| `FileManagers.FileManager.FindFile` | storage/meta/db-meta-manager.go:1088-1097 | binary search gives the first file whose number is not below a given one |
| `FileManagers.FileManager.GetFile` | storage/meta/db-meta-manager.go:1099-1116 | gives the file with a number, if there is one |
| `FileManagers.FileManager.NextSeq` | storage/meta/db-meta-manager.go:1160-1168 | the number of a new file is above all others, with no file it is 1; it has not been used before exactly if the greatest one ever is in memory, or none was used |
| `FileManagers.FileManager.AddFile` | storage/meta/db-meta-manager.go:1186-1207 | adds a file to be created, or reports that the queue is full and changes nothing; the invariant stays exactly if no deletion of its number is due or under way and no withdrawn update of it is still listed |
| `FileManagers.WithdrawnSwallows` | storage/meta/db-meta-manager.go:1209-1226 | an update noted for a number whose withdrawn update is still listed is lost |
| `FileManagers.FileManager.UpdateFile` | storage/meta/db-meta-manager.go:1209-1226 | replaces a file and notes an update unless its creation is still due |
| `FileManagers.FileManager.DeleteFile` | storage/meta/db-meta-manager.go:1228-1252 | drops the files up to a number, withdraws what was due for them and notes their deletion |
| `FileManagers.FileManager.PickCreated` | storage/meta/db-meta-manager.go:610-625 | takes the next file to be created, withdrawn ones skipped |
| `FileManagers.FileManager.PickUpdated` | storage/meta/db-meta-manager.go:643-658 | takes the next file to be updated, withdrawn ones skipped |
| `FileManagers.FileManager.PickDeleted` | storage/meta/db-meta-manager.go:676-690 | takes the next number to be deleted |
| `FileManagers.FileManager.Fail` | storage/meta/db-meta-manager.go:627-635 | after a failed call the file is noted again if it is still there |
| `FileManagers.FileManager.Succeed` | storage/meta/db-meta-manager.go:610-690 | a call that succeeds writes or removes the row and ends |
| `FileManagers.FileManager.Flush` | storage/meta/db-meta-manager.go:793-799 | creating, updating and deleting all that is due leaves a table that has the files in memory, each row equal to its file exactly if the last write of the file cleared no field of it |
| `IndexGetters.GetsAreTheQuery` | storage/index-getter.go:87-195 | in every interleaving without seeks, Get delivers the rows of the whole-range query, each once and in order; the cache never overflows and at most half of it is history |
| `IndexGetters.HistoryIsKept` | storage/index-getter.go:168-188 | without seeks, exactly the last delivered rows are kept in front of the others, up to half of the cache |
| `IndexGetters.PlanIs` | storage/index-getter.go:91-120 | a query is made exactly if the end was not reached and there is room for half a cache or a buffer; where it starts and how much it asks for |
| `IndexGetters.SeekGoesTo` | storage/index-getter.go:209-220 | a seek goes to its time, or to the nearer end of the interval |
| `IndexGetters.SeekKeepsCache` | storage/index-getter.go:239-258 | which seeks before the end keep the cached rows, where they then go, and how many rows are left in front; the others empty the cache |
| `IndexGetters.SeekSignals` | storage/index-getter.go:209-269 | when a seek to another time signals something to get, when it asks for rows, and when it knows the end |
| `CachedIndexGetters.SizesAre` | storage/index-getter.go:48-60 | the sizes of buffer and cache by default and at least |
| `IndexGetters.QueriesFit` | storage/index-getter.go:103-120 | no query asks for more rows than the buffer holds or the cache has room for |
| `IndexGetters.EndIsEnd` | storage/index-getter.go:168-195 | Get reports the end exactly if the producer has reached it and every row was delivered |
| `IndexGetters.GetReturns` | storage/index-getter.go:87-195 | no wake-up is lost: from every state reachable by seeks that lose nothing, a Get that waits returns within 24 steps of the two sides, and until then a step is always possible |
| `IndexGetters.GetIsNeverStuck` | storage/index-getter.go:87-195 | whenever Get is under way, a step is possible |
| `IndexGetters.StepLeadsOn` | storage/index-getter.go:87-195 | every step of either side, while Get is under way, brings its return nearer |
| `IndexGetters.StepKeeps` | storage/index-getter.go:87-269 | every step of producer and consumer, seeks that lose nothing included, keeps the invariant |
| `IndexGetters.PlanKeeps` | storage/index-getter.go:91-120 | with an empty tail the room always reaches the threshold, so a query follows |
| `IndexGetters.PushIs` | storage/index-getter.go:139-161 | rows read behind the end of the cache pass the order filter, fit the cache and are what the query gives behind it |
| `IndexGetters.QueryBehind` | storage/index-getter.go:122-123 | asked again behind a row of it, a query gives the rows behind that row |
| `IndexGetters.GetsAfterSeek` | storage/index-getter.go:209-269 | behind any seek that loses nothing, in every interleaving up to the next seek, Get delivers the rows of the query from the time of the seek, each once and in order, and the end only behind the last |
| `IndexGetters.SeekKeepsIff` | storage/index-getter.go:209-269 | a seek to any time keeps the invariant exactly if the time is the current one or the end, rows are cached, or, with nothing cached, the query from the new time is empty too (after the end was reached) or the producer has been asked or is at a query from that time (before) |
| `IndexGetters.FalseEnd` | storage/index-getter.go:209-269 | from every state in which such a seek is not one of these and the end was reached, the very next Get reports the end, although the query from the new time has rows |
| `IndexGetters.WaitsForEver` | storage/index-getter.go:209-269 | from every such state before the end, no Get returns in any interleaving up to the next seek |
| `IndexGetters.SeekBackIsLost` | storage/index-getter.go:222-238 | a seek to the end and back before anything was read: Get reports the end, although there are rows |
| `IndexGetters.SeekMeanwhileIsLost` | storage/index-getter.go:145-150 | a seek while the first query is under way: its answer is dropped, no step of either side is possible any more, and Get waits for ever |
| `CachedIndexGetters.CachedIndexGetter.Plan` | storage/index-getter.go:90-120 | decides under the lock where to read and how much, or leaves too small a room alone |
| `CachedIndexGetters.CachedIndexGetter.Push` | storage/index-getter.go:139-163 | pushes the rows that pass, and takes a short answer for the end |
| `CachedIndexGetters.CachedIndexGetter.Try` | storage/index-getter.go:168-188 | the locked part of Get: the next row, the end, or neither |
| `CachedIndexGetters.CachedIndexGetter.PopCache` | storage/index-getter.go:197-207 | drops exactly the history beyond half of the cache |
| `CachedIndexGetters.CachedIndexGetter.Seek` | storage/index-getter.go:209-269 | to the end, within the cache, outside of it or with nothing cached: takes the step of the model, and leaves the reader in order exactly if the seek loses nothing |
| `BlockWriter.IndexesTileFiles` | storage/file/channel.go:473-605 | in every run, with full or partial writes, the indexes of a file tile it from where it began to its end, and the range of one holds the beginning of the bytes put into the buffer for it, all of them if it was written in full |
| `BlockWriter.DataIsThere` | storage/file/channel.go:473-605 | an index in the state of a block with data was written in full, and its range gives back the bytes put into the buffer for it |
| `BlockWriter.IndexedInOrder` | storage/file/channel.go:473-736 | the indexes handed to the meta manager, and then those on their way, are those of the accepted calls, in order, none lost and none twice |
| `BlockWriter.FileSizesBounded` | storage/file/channel.go:482-592 | every recorded size stays below the file size plus the buffer size, the open file is below the file size, and with none open the last record says how long the last file is |
| `BlockWriter.BuffersHaveOneOwner` | storage/file/channel.go:629-683 | every buffer is in the pool or with exactly one request: current, queued or taken over |
| `BlockWriter.WriteOutcome` | storage/file/channel.go:646-713 | a write leaves its block behind exactly if it fits the current buffer or the queue takes what is in front of it: with all its bytes, as far as the buffer takes them, or as dropped if more are announced than a buffer holds or there is none; the answer is positive exactly if the queue takes what has to be queued behind as well |
| `BlockWriter.SubmitOutcome` | storage/file/channel.go:698-736 | an index of its own or the order to close is kept exactly if nothing is in front of it or the queue takes that; it is answered with an error although it is kept if the queue does not take it as well |
| `BlockWriter.StepKeeps` | storage/file/channel.go:473-736 | every step of the writer and of doSync keeps order, ownership, files and tiling |
| `BlockWriter.BlockKeeps` | storage/file/channel.go:477-592 | a block request, written in full, in part or lost, keeps files, log and bytes in step and gives its buffer back |
| `BlockLaws.BlockGoes` | storage/file/channel.go:477-592 | where a block goes: the end of the open file, with none open of the last one if it is neither full nor too old nor switched, else a new one under the next number; its bytes stand there, and the file stays open exactly if it is neither full nor old enough then |
| `BlockLaws.LostBlock` | storage/file/channel.go:506-513 | if no file can be opened, the bytes are lost, and the indexes are in the state of a write error and in no file |
| `BlockLaws.CloseCloses` | storage/file/channel.go:597-602 | an order to close leaves no file open and the last record with the length of its file, and changes nothing else |
| `BlockLaws.BlockAfterClose` | storage/file/channel.go:480-592 | the block behind it goes on in that file, behind all of its bytes, unless it is full or too old |
| `BlockLaws.FirstBlock` | storage/file/channel.go:480-592 | the first block after the start goes on behind the bytes of the last file, unless that is full or too old |
| `BlockLaws.PlacedAt` | storage/file/channel.go:560-577 | index by index of a block of which some bytes got through: its place behind the bytes before it, its size what got through of its own, state 6 if the write failed, and nothing else of it changed |
| `BlockLaws.WrittenBytes` | storage/file/context/context.go:156-230 | bytes written into a file stand from the offset on; those before and behind stay, and a gap is zeros |
| `BlockLaws.GathersIff` | storage/file/channel.go:646-696 | a block joins the current one exactly if the buffer has room for the bytes announced; its index says where it begins and ends and how long it is |
| `BlockLaws.DropsBlock` | storage/file/channel.go:646-713 | a block larger than a buffer, or without one, leaves an index in state 4 with the announced size behind what is gathered |
| `BlockLaws.OrdersQueue` | storage/file/channel.go:698-736 | the order to close and the index of a lost stream (state 18) queue behind what is gathered |
| `BlockWriter.OpenOk` | storage/file/channel.go:480-527 | a block finds the end of a file that is not full: kept open, reopened at its recorded size, or new |
| `BlockWriter.PlaceTiles` | storage/file/channel.go:560-577 | the indexes of a block follow one another from the offset on |
| `BlockWriter.PlaceCovers` | storage/file/channel.go:560-577 | together they cover all the bytes that got through, and nothing of other files |
| `BlockWriter.PlaceWhole` | storage/file/channel.go:560-577 | the indexes of a block that got through in full stay whole, and of another none claims to have data |
| `BlockWriter.PlaceReads` | storage/file/channel.go:560-577 | each of them covers the beginning of its own bytes |
| `BlockWriter.WriteGrows` | storage/file/context/context.go:156-230 | a write at the end makes the file longer by what got through and leaves position and size at its new end |
| `BlockWriter.WriteKeeps` | storage/file/channel.go:646-696 | writeBlock keeps order and ownership whichever way it goes |
| `FileChannels.Buffer.Write` | storage/file/channel.go:215-219 | appends what fits and says how much that was |
| `FileChannels.FileChannel.Sync` | storage/file/channel.go:629-644 | queues the current request; with a full queue it stays current |
| `FileChannels.FileChannel.WriteBlock` | storage/file/channel.go:646-696 | a block goes into the current buffer, a new one, or is dropped |
| `FileChannels.FileChannel.DropBlock` | storage/file/channel.go:698-713 | a dropped block leaves an index of its own behind what is gathered |
| `FileChannels.FileChannel.StreamLost` | storage/file/channel.go:715-728 | a lost stream leaves an index of its own, and an error exactly if that is not queued |
| `FileChannels.FileChannel.Close` | storage/file/channel.go:730-736 | the order to close the file queues behind what is gathered, and an error exactly if it is not queued |
| `FileChannels.FileChannel.OpenForWrite` | storage/file/channel.go:480-527 | opens the last file at its end, or a new one |
| `FileChannels.FileChannel.WriteContext` | storage/file/context/context.go:156-218 | moves position and size with what is written |
| `FileChannels.FileChannel.AddIndexes` | storage/file/channel.go:560-577 | the loop over the indexes of a block gives each its place, its size and its state |
| `FileChannels.FileChannel.WriteToOpened` | storage/file/channel.go:530-592 | writes a block, adds its indexes, and switches a file that is full or old enough |
| `FileChannels.FileChannel.ProcessRequest` | storage/file/channel.go:473-605 | one request: a block, an index, or the order to close |
| `FileChannels.FileChannel.DoSync` | storage/file/channel.go:473-605 | hands the indexes of all queued requests to the meta manager in their order |
| `H264.FragmentHeaders` | media/h264/nalu.go:32-80 | the two header bytes of a fragment give back its ends and the header of the NAL unit, but for the forbidden bit |
| `H264.FlagsTouchOneBit` | media/h264/nalu.go:54-72 | setting the start or end flag of a fragment changes nothing else |
| `H264.SetReadsBackIff` | media/h264/nalu.go:36-46 | a type or importance reads back exactly if no other of its bits was set before |
| `H264.ForbiddenBitIsLost` | media/h264/rtp-packager.go:54-127 | a fragmented NAL unit with the forbidden bit set comes back without it |
| `H264.FragmentTypeIsLost` | media/h264/rtp-packager.go:31-52 | a short NAL unit with the type of a fragment does not come back |
| `H264.PiecesAreBody` | media/h264/rtp-packager.go:105-124 | a body that needs fragments is cut into at least two pieces that make it up, none empty or too long, all but the last lacking at most two bytes of a full packet |
| `H264.PackagedComesBackIff` | media/h264/rtp-packager.go:129-136 | a NAL unit comes back by section 5.8 of RFC 6184, for any chunking of its body, exactly if its forbidden bit is off when it needs fragments, and its type is 1 to 23 when it does not |
| `H264.FragmentsReassemble` | media/h264/rtp-packager.go:54-127 | fragments reassemble to the pieces they were cut into |
| `H264.PacketShapes` | media/h264/rtp-packager.go:31-136 | every payload is non-empty and within the limit; only the last packet is marked; only the first fragment starts, only the last ends, none does both, and each but the last carries at least the limit less four bytes of body |
| `H264.FragmentBytes` | media/h264/rtp-packager.go:54-127 | fragment by fragment: 28 with the importance of the unit, its type with bit 7 in the first and bit 6 in the last, and a piece; the marker on the last |
| `H264.ShortBytes` | media/h264/rtp-packager.go:129-136 | a body that leaves a byte of the limit free behind its header goes out in one packet as it is |
| `H264.OneChunkFills` | media/h264/rtp-packager.go:105-124 | of a body in one chunk, every piece but the last fills its packet |
| `H264.PieceAcrossChunks` | media/h264/rtp-packager.go:105-124 | where a chunk ends, the piece is filled up from the next one exactly if it lacks at least three bytes |
| `H264.RtpPackager.PackageFu` | media/h264/rtp-packager.go:54-127 | the loops over chunks and packets give the fragments of the body |
| `H264.RtpPackager.Package` | media/h264/rtp-packager.go:129-136 | one packet for a short NAL unit, else fragments |
| `H264Parser.UnitsComeBack` | media/h264/nalu-parser.go:66-121 | NAL units behind start codes of either length, cut behind their fifth byte and so that no later chunk marked as a prefix begins like a start code, come back in order and once each; a unit of a type that is not allowed is one error in its place |
| `H264Parser.OneUnit` | media/h264/nalu-parser.go:66-108 | the chunks of one unit bring out what was under way and leave the unit under way, unless its type is not allowed |
| `H264Parser.UnitBytes` | media/h264/nalu-parser.go:51-94 | behind a start code, a header whose low five bits are 0 or above 12 is one error with that value, and any other begins a unit of it and the bytes behind it |
| `H264Parser.MoreBytes` | media/h264/nalu-parser.go:95-108 | a chunk without a start code in front goes on with the unit under way, or is dropped if there is none |
| `H264Parser.NaluParser.Parse` | media/h264/nalu-parser.go:66-108 | one call takes the step of the parser on values |
| `H264Parser.NaluParser.Complete` | media/h264/nalu-parser.go:114-121 | brings out the unit under way, if there is one |

## Left out

- Machine integers: sequence numbers, times, sizes and file offsets are unbounded here; the 8- and 16-bit
  lengths of program streams are modelled where they wrap.
- Bytes of program streams and lines are integers from 0 to 255, and the 64-bit windows are numbers with
  shifts as divisions; the bitmap and H.264 headers use 8-bit vectors.
- Lengths that the source stores beside what they measure (of descriptors, maps and pack fields) are taken
  from the bytes themselves.
- Stale values that optional PES fields keep from an earlier pack when their flag is off.
- Bit-field accessors of headers: they read and change nothing that the parsers depend on.
- The stream-info list that the frame parser derives from stream maps.
- The size reported in a line error: an oversized line is one error without its size.
- Reference counts, and the reuse of packs and packets by pools; copying is by value.
- H264.RtpPackager.Package: the size kept beside a body's chunks is taken to be their total, which does not
  hold after the body is cleared, since clearing leaves the size.
- H264Parser.NaluParser.Parse: chunks marked as prefixes with fewer than five bytes, which the source
  collects first.
- IndexCache.GrowPushIff: a refill whose read fails, which changes nothing.
- IndexManagers.IndexManager.CreateIndex: failing and interrupted database calls are retried by the source
  without an effect of their own; at shutdown it gives up after the first failure and loses the row.
- IndexQueries.FindIsFilter: failing table reads.
- PsParser.Parser.Parse: a call while the last pack is still there, to which the source would add stream infos.
- FileManagers.FileManager.AddFile: the source panics for a number that is not above the last one in memory.
- FileMeta.WriteBehindCatchesUp: which of the due tasks runs first is left open, and a creation that meets an
  existing row is not told apart from any other failure.
- Which position of a ring buffer a pointer into the file queue refers to after its file was deleted.
- IndexGetters.StepKeeps: failing queries and the closing of the channels. A seek signals inside of its step
  that there is something to get.
- BlockWriter.FileSizesBounded: files are also switched by duration; whether a file has lasted long enough
  is an open choice at every write, since times are corrected by the meta manager.
- BlockWriter.OpenOk: a failing seek, and a record that cannot be added after its file was opened.
- FileChannels.FileChannel.OpenForWrite: the same two failures.
- FileChannels.FileChannel.WriteBlock: requests hold the bytes of their buffer by value; that a buffer has one
  owner at a time is proved on buffer numbers, and the copying on the buffer itself.
- The deletion of files whose indexes have left the cover period.
- The HTTP interface, configuration, logging, lifecycles, RTSP servers, the linear media channels, the
  index-block manager under `storage/file/meta` and the second copy of the start-code finder.
