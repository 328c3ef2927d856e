# Applesauce, modelled in Dafny

Applesauce compresses files into the transparent-compression format of macOS (decmpfs): a
16-byte-headed extended attribute that holds either one small compressed block or a pointer
to a resource fork full of them. This project models the parts of it that have to be right
for data to survive, and proves what they promise.

There are four groups of modules.

**The on-disk format.** `Bytes` (endian fields and their inverses), `Decmpfs` (the
attribute), `SeekableStore` (a byte store with a position, holes that read as zeros, and
32-bit limits), `ZlibFormat` and `LzFormat` (the two fork layouts, their writers and their
parsers), `Format` (dispatch over the kinds), `CompressedWriter` and `CompressedReader` (the
classes that leave a hole, append blocks and back-fill the header, and that fetch blocks by
relative seeks). A fork has a front-to-back specification, `Layout`; the writers are proved
to end at it, the parsers are proved to accept it, and what they return locates every block.
The zlib parser also lets through tables with overlaps and gaps, and reading is specified
for those too; the LZ parser accepts canonical forks only.

**The path of one file.** `BlockCodec` (a block with its stored fallback), `Streams` (the
I/O loops against short reads, short writes, interruptions and faults), `Chunking`,
`BlockWriting` (the loops that drain a block queue, and verification), `QueuedWork` (reader,
worker threads and writer around one ordered queue, under any schedule, panicking workers and
writers that give up included), `Pipeline` (one file there and back, directly or through
scratch space). A codec is a pair of functions passed in with a hypothesis, `Faithful`. Its
part about the stored marker: for zlib it follows from section 2.2 of RFC 1950, since the low
nibble of the first byte of a zlib stream is the compression method, 8 for deflate, and the
marker 0xFF has 15 there; for LZVN the marker 0x06 is the end-of-stream command, which no
encoding of data starts with. `RunCodec` is a codec that meets the hypothesis for every kind,
so the theorems are not about nothing.

**Scratch staging.** `ScratchBudget` (the byte budget, a mutex-and-condition-variable
monitor that serves every waiter in the end), `MemoryStaging` (the capacity-bounded buffer),
`Staging` (worst-case reservations, the two staging operations, and publishing).

**Protocols.** Each is a transition system whose events are single actions of single
threads, so that a run is an arbitrary interleaving. `SequentialQueue`: slots prepared in
order, completed in any order, consumed in order, with a shared status cell. `Batching`: the
coordinator that admits files under a byte target, waits for a shared completion guard per
file, publishes, flushes and goes on; its safety holds for any interleaving, its progress
also when every queue is full and every pool of threads busy. `BatchCoordinator` is the
coordinator as a program: its own events in the program's order, with any number of steps of
the other threads before, between and while it waits. `Statistics`: which of three places
records the end of each file, and when the totals are delivered.

Four things the proofs turned up:

- A plain drop of a queue slot releases the one-shot channel before it records the error
  (crates/applesauce/src/seq_queue.rs:106, fields dropped in order). If that happens to the
  last slot after the sender has finished Ok and gone, the receiver can see the gap while the
  status still says success and return Ok without the last item.
  `SequentialQueue.LateDropLosesItem` builds such a run from every state where the last slot
  is still owed, and `SequentialQueue.OkIsWrongIffGap` says exactly when the verdict is wrong.
  Late drops of other slots do no harm: `SequentialQueue.OkMeansComplete` holds for every
  interleaving in which the last slot is not dropped like that. The program's sending thread
  keeps to that (crates/applesauce/src/threads/reader.rs:135-155), but a worker that panics
  drops its slot whenever it does. `QueuedWork.QueueDeliversResults` says how every run ends,
  and `QueuedWork.PanicPassesForSuccess` is one that loses its item and ends in Ok. What
  protects the file then is what is counted after the loop: the length of decompressed data
  (crates/applesauce/src/threads/writer.rs:244) and the number of compressed blocks
  (crates/applesauce-core/src/writer.rs:110). `BlockWriting.WriteUncompressedBlocks` and
  `BlockWriting.WriteCompressedBlocks` never complete a delivery with items missing at its end,
  but for two cases: the only block of a small file is asked for by a debug assertion alone
  (crates/applesauce-core/src/writer.rs:102), and the blocks of a malformed LZVN file may come
  to the expected length before the last one (`Pipeline.RestoredIsDecoded`; one such file is
  in `Pipeline.MalformedFilePasses`).
- `decompress` does not undo `compress` in a buffer of exactly the block's length: the LZ kinds
  take a full buffer for a fault. LZFSE then reports an error, and LZVN panics in every build
  (crates/applesauce-core/src/compressor/lzvn.rs:70); for a run of twenty bytes they do so
  concretely (`BlockCodec.ExactRoomFails`). `BlockCodec.RoomNeeded` is the exact condition for
  every block, kind and room: an encoded LZ block needs strictly more room than its length, a
  stored block its length. All callers give more to the blocks the program itself compresses.
- Not every admitted file length fits a 32-bit fork. `Format.AdmittedForksFit` says exactly
  which do when blocks are at worst stored: all up to 0x9013A bytes short of 32 bits. Such a
  file of the zlib or LZVN kind is refused only for its size limit
  (`Pipeline.FitsStoredIsCompressible`); an incompressible one that is not `FitsStored` is
  refused always, with an error (`Pipeline.TooLongIsRefused`).
- The worst-case reservation is never used up. The attribute of a file with a fork has no data
  in it, so the 3786 bytes for that always stay free, and for the LZ kinds the 50 bytes of a
  trailer they do not have (`Staging.StagedAtMost`). What is left after those is the exact
  maximum (`Staging.FullBuffersTakeThat`); only the payload's share is exact as it is, for zlib.

Conventions: I/O results are `Result` values; a source assertion or `unwrap` that an input
can reach is the error `Panicked`; whether the writer's debug assertions are compiled in is a
parameter. A `reliable` store, or a `Calm` stream, meets no I/O error; contracts say that
failures then come only from the cases named, and where the table says "exactly" it is with
that proviso. `ReadOutcome`, `WriteOutcome` and the scripts of `Streams` stand for whatever the operating system chooses.

## Model

| member | source | states |
|---|---|---|
| Bytes.LittleEndianRoundTrip | crates/applesauce-core/src/decmpfs.rs:164-178 | decoding a little-endian field gives back every number that fits its width |
| Bytes.LittleEndianDigit | crates/applesauce-core/src/decmpfs.rs:164-178 | byte i of a little-endian field is the digit that counts the 256^i |
| Bytes.FromLittleEndianRoundTrip | crates/applesauce-core/src/decmpfs.rs:143-144 | every byte string of a field's width is the encoding of the number it decodes to |
| Bytes.BigEndianMirrors | crates/applesauce-core/src/compressor/zlib.rs:192-206 | a big-endian field is the little-endian one read backwards, byte by byte |
| Bytes.ByteOrders | crates/applesauce-core/src/compressor/zlib.rs:192-206 | the two byte orders on a number that tells them apart |
| Decmpfs.NumBlocks | crates/applesauce-core/src/lib.rs:8-13 | the least number of blocks that holds the given number of bytes |
| Decmpfs.BlocksOf | crates/applesauce-core/src/lib.rs:6-13 | n blocks of 65536 bytes for every length that needs n |
| Decmpfs.FromRawType | crates/applesauce-core/src/decmpfs.rs:59-97 | exact inverse of the written type numbers; every other number is unknown |
| Decmpfs.TypeNumbers | crates/applesauce-core/src/decmpfs.rs:59-72 | 3, 7 and 11 for data in the attribute, one more for data in the fork |
| Decmpfs.AttributeFields | crates/applesauce-core/src/decmpfs.rs:164-178 | where magic, type, length and data are in an attribute, and in which byte order |
| Decmpfs.AcceptedAttributes | crates/applesauce-core/src/decmpfs.rs:136-157 | exactly sixteen bytes or more that start with the magic are accepted, and which types are known; names the error otherwise |
| Decmpfs.TrailerFields | crates/applesauce-core/src/decmpfs.rs:185-198 | the fifty bytes of the trailer as the fields they are |
| Decmpfs.ValueRoundTrip | crates/applesauce-core/src/decmpfs.rs:136-178 | parsing an attribute gives back the value it was written from |
| Decmpfs.ValueCanonical | crates/applesauce-core/src/decmpfs.rs:136-178 | an accepted attribute is the one spelling of its value: printing it again gives the same bytes |
| SeekableStore.OverwriteAppend | crates/applesauce-core/src/writer.rs:80-92 | two writes in a row are one longer write, holes included |
| SeekableStore.OverwriteMiddle | crates/applesauce-core/src/compressor/zlib.rs:157-163 | back-filling replaces exactly as many bytes as it writes and keeps everything before and after |
| SeekableStore.Store.WriteAll | crates/applesauce-core/src/writer.rs:90-92 | succeeds only within the write limit, then replaces or extends at the position and moves it; a failure may leave any first part written |
| SeekableStore.Store.SeekRelative | crates/applesauce-core/src/reader.rs:82-83 | moves by a signed offset, never before the start or past the limit |
| SeekableStore.Store.ReadToEnd | crates/applesauce-core/src/reader.rs:85-88 | delivers what there is up to the limit, and stops behind it; a failure may have delivered any first part of that |
| ZlibFormat.TableStep | crates/applesauce-core/src/compressor/zlib.rs:166-176 | one iteration of the table loop leaves exactly the rest of the table to be written |
| ZlibFormat.WriteTable | crates/applesauce-core/src/compressor/zlib.rs:164-176 | writes the whole table, or fails, exactly when a running offset leaves 32 bits or the store refuses |
| ZlibFormat.Finish | crates/applesauce-core/src/compressor/zlib.rs:141-189 | from any position, succeeds exactly when position, counts and offsets fit their fields and everything fits the store; states every byte of the store afterwards, and the four numbers of the header by themselves |
| ZlibFormat.FinishedFields | crates/applesauce-core/src/compressor/zlib.rs:192-206 | over whatever the store held, the header is the start, the end and the length of the data and the length of the map, in that order |
| ZlibFormat.BackFill | crates/applesauce-core/src/compressor/zlib.rs:157-176 | header, gap, fields and table fill the hole completely and touch nothing behind it |
| ZlibFormat.FinishedIsLayout | crates/applesauce-core/src/compressor/zlib.rs:141-206 | the writer's seeks back and forth end at the front-to-back layout; no block byte is overwritten |
| ZlibFormat.ReadPrelude | crates/applesauce-core/src/compressor/zlib.rs:84-117 | accepts exactly the fixed fields that belong to this file end and block count |
| ZlibFormat.ReadTable | crates/applesauce-core/src/compressor/zlib.rs:119-126 | returns all table entries rebased by 0x104, failing exactly on a short table or an offset beyond 32 bits |
| ZlibFormat.ReadBlockInfo | crates/applesauce-core/src/compressor/zlib.rs:69-139 | accepts exactly the well-formed forks and returns their table |
| ZlibFormat.AcceptedBytes | crates/applesauce-core/src/compressor/zlib.rs:69-139 | a fork is accepted if and only if each fixed field, the trailer and every offset is right, byte by byte; what is returned are its entries, rebased |
| ZlibFormat.TableAt | crates/applesauce-core/src/compressor/zlib.rs:164-176 | entry i of a written table holds the sum of the earlier sizes and its own size |
| ZlibFormat.LayoutParses | crates/applesauce-core/src/compressor/zlib.rs:69-189 | every layout within 32 bits is accepted and its blocks are reported where they are |
| ZlibFormat.LayoutBytes | crates/applesauce-core/src/compressor/zlib.rs:141-206 | every fixed field of a finished fork at its place: header, zeros, length, block count, trailer |
| ZlibFormat.LayoutEntry | crates/applesauce-core/src/compressor/zlib.rs:164-176 | each table entry of a finished fork at its place: offset from 0x104, then size |
| ZlibFormat.LayoutData | crates/applesauce-core/src/compressor/zlib.rs:141-189 | any piece of the block data is found behind the header at its own offset |
| LzFormat.WriteTable | crates/applesauce-core/src/compressor/lz.rs:194-202 | writes n+1 offsets, or fails, exactly when one leaves 32 bits or the store refuses |
| LzFormat.Finish | crates/applesauce-core/src/compressor/lz.rs:188-215 | succeeds exactly when the last offset fits 32 bits; states every byte of the store afterwards |
| LzFormat.FinishedIsLayout | crates/applesauce-core/src/compressor/lz.rs:188-215 | back-filling the table over the hole gives the front-to-back layout |
| LzFormat.ReadTable | crates/applesauce-core/src/compressor/lz.rs:166-177 | returns the gaps between consecutive offsets, failing exactly when they decrease or run out |
| LzFormat.ReadBlockInfo | crates/applesauce-core/src/compressor/lz.rs:142-186 | accepts exactly the well-formed forks and returns their gaps |
| LzFormat.LayoutParses | crates/applesauce-core/src/compressor/lz.rs:142-215 | every layout within 32 bits is accepted and its blocks are reported where they are |
| LzFormat.LayoutBytes | crates/applesauce-core/src/compressor/lz.rs:188-215 | each offset of a finished fork at its place, and behind them nothing but the data |
| LzFormat.SizesRebuildTable | crates/applesauce-core/src/compressor/lz.rs:158-183 | the sizes read from an accepted table rebuild that table and add up to the file's end |
| LzFormat.AcceptsExactlyLayouts | crates/applesauce-core/src/compressor/lz.rs:142-215 | canonical form: a byte string is accepted if and only if it is a layout; its blocks tile the rest of the file, and finishing with the returned sizes changes no byte |
| LzFormat.AcceptedIsLayout | crates/applesauce-core/src/compressor/lz.rs:142-215 | every accepted fork is the layout of the sizes its parser returned |
| Format.Finish | crates/applesauce-core/src/compressor/mod.rs:236-247 | for each kind, from any store and position: succeeds exactly when counts and offsets fit their fields, and states every byte afterwards |
| Format.FinishedIsLayout | crates/applesauce-core/src/compressor/mod.rs:236-247 | for each kind, what finishing makes of block data behind its hole is the front-to-back layout |
| Format.ReadBlockInfo | crates/applesauce-core/src/compressor/mod.rs:219-234 | for each kind, accepts exactly the well-formed forks |
| Format.LayoutParses | crates/applesauce-core/src/compressor/mod.rs:205-247 | what a kind's writer lays out its parser accepts, block positions included |
| Format.LayoutData | crates/applesauce-core/src/compressor/mod.rs:205-247 | a bounded read at a block's position delivers that piece of the data |
| Format.LayoutBytes | crates/applesauce-core/src/compressor/mod.rs:205-247 | every kind gets its own format: the header numbers and trailer for zlib, offsets and no trailer for the LZ kinds |
| Format.AdmittedOffsetsFit | crates/applesauce/src/info.rs:199-206 | for every admitted file length the header is below 0x80109 bytes, and in a fork that fits no block offset or end wraps |
| Format.StoredSizesSum | crates/applesauce-core/src/lib.rs:6-13 | stored blocks take the file length and a byte per block |
| Format.AdmittedForksFit | crates/applesauce/src/info.rs:199-206 | exactly the file lengths for which every fork of at most stored blocks fits 32 bits; all of them up to 0x9013A bytes short of that |
| CompressedWriter.AppendBlock | crates/applesauce-core/src/writer.rs:80-92 | appending a block to a fork behind its hole is the fork of one block more |
| CompressedWriter.Writer.Create | crates/applesauce-core/src/writer.rs:42-63 | opens the fork at once exactly for more than one block, leaving a hole of header size |
| CompressedWriter.Writer.AddBlock | crates/applesauce-core/src/writer.rs:65-96 | adds exactly that block, moving a single block to the fork exactly when it exceeds the attribute; a block beyond 32 bits or a second one for a single-block file is the assertion failure |
| CompressedWriter.Writer.WriteSingleBlockAsRfork | crates/applesauce-core/src/writer.rs:157-177 | afterwards the fork holds exactly that block behind its hole |
| CompressedWriter.Writer.ForceResourceFork | crates/applesauce-core/src/writer.rs:139-153 | moves the block held back to the fork; changes nothing when blocks go there already |
| CompressedWriter.Writer.FinishDecmpfsData | crates/applesauce-core/src/writer.rs:98-131 | succeeds exactly for the right block count in a fork that fits; states attribute and fork completely, and what parsing the attribute gives: kind, storage and the length before compression; a missing inline block is the debug assertion, or without it an attribute without data |
| CompressedWriter.StoredSays | crates/applesauce-core/src/writer.rs:98-131 | a finished file, inline or with a fork, says its kind, its true length and where its data is |
| CompressedWriter.InlineWithinMaximum | crates/applesauce-core/src/writer.rs:68-79 | one block is kept in the attribute exactly if that stays within 3802 bytes |
| CompressedReader.Reader.Open | crates/applesauce-core/src/reader.rs:38-68 | opens exactly the described, well-formed files, at the start, with every table entry outstanding |
| CompressedReader.Reader.ReadBlockInto | crates/applesauce-core/src/reader.rs:70-99 | relative seeking is absolute reading: appends exactly the bytes at the next entry's offset, for any table; false exactly when nothing remains |
| CompressedReader.ForkRoundTrip | crates/applesauce-core/src/reader.rs:38-99 | the finished fork of any blocks that fit contains exactly those blocks in order |
| CompressedReader.InlineRoundTrip | crates/applesauce-core/src/reader.rs:38-72 | the finished attribute of a small file contains exactly its block |
| CompressedReader.BlocksLieInFork | crates/applesauce-core/src/reader.rs:70-99 | exactly the files whose table stays within the fork can be read, and each block is the bytes its entry says |
| CompressedReader.PopOutstanding | crates/applesauce-core/src/reader.rs:78-97 | popping the last entry of the reversed table takes the first outstanding block |
| CompressedReader.OpenedContents | crates/applesauce-core/src/reader.rs:48-67 | a reader just opened has all of the file's blocks outstanding, in file order |
| CompressedReader.NextBlock | crates/applesauce/src/rfork_storage.rs:22-26 | takes the first outstanding block and leaves the others; reports the end only when none is left |
| CompressedReader.WithCompressedBlocks | crates/applesauce/src/rfork_storage.rs:9-31 | the callback is given every block of the file in order until it fails, and nothing else decides the result |
| BlockCodec.Compress | crates/applesauce-core/src/compressor/zlib.rs:31-50 | leaves the encoded or stored form in the output buffer, failing only where no stored form exists |
| BlockCodec.EncoderIsPreferred | crates/applesauce-core/src/compressor/zlib.rs:31-50 | the result is no longer than the block if and only if the encoder managed that, and then it is the encoder's; otherwise the block behind its marker |
| BlockCodec.LzfseNeedsItsEncoder | crates/applesauce-core/src/compressor/lz.rs:88-113 | without a stored form compressing succeeds exactly when the encoder does in the whole buffer |
| BlockCodec.RunIsCompressed | crates/applesauce-core/src/compressor/zlib.rs:31-50 | a concrete block of 65536 bytes that every kind brings down to ten |
| BlockCodec.Decompress | crates/applesauce-core/src/compressor/lz.rs:115-140 | leaves the decoded data in the output buffer, failing exactly on empty, undecodable or too long input, for the LZ kinds also on data that fills the buffer, and for LZVN then with a panic |
| BlockCodec.StoredBlocks | crates/applesauce-core/src/compressor/lz.rs:115-128 | what stands behind 0xFF for zlib or 0x06 for LZVN is taken as it is, if there is room; LZFSE knows no marker |
| BlockCodec.DecoderIsBelieved | crates/applesauce-core/src/compressor/lz.rs:129-140 | any other block is exactly what the decoder makes of it, except nothing or a full buffer from an LZ decoder |
| BlockCodec.FallbackPreserves | crates/applesauce-core/src/compressor/lz.rs:88-140 | whichever branch compressing took, decompressing into more room than the block gives it back; zlib and LZVN add at most one byte |
| BlockCodec.RoomNeeded | crates/applesauce-core/src/compressor/lz.rs:115-140 | how much room decompressing needs, exactly: an encoded LZ block strictly more than its length, a stored one its length; for zlib more suffices and less never does |
| BlockCodec.OnlyFullLzvnPanics | crates/applesauce-core/src/compressor/lzvn.rs:50-75 | decompressing panics exactly when LZVN data fills the buffer; compressing never does |
| BlockCodec.ExactRoomFails | crates/applesauce-core/src/compressor/lz.rs:115-140 | a concrete encoded block that does not come back from a buffer of its own length, an error for LZFSE and a panic for LZVN, and does with one byte more |
| BlockCodec.RunCodecIsFaithful | crates/applesauce-core/src/compressor/zlib.rs:31-67 | a codec meeting the hypothesis exists for every kind |
| Streams.TryReadAll | crates/applesauce/src/lib.rs:340-367 | fills the buffer as far as the stream goes, in stream order, whatever the reads return |
| Streams.WriteChunk | crates/applesauce/src/threads/writer.rs:590-609 | the count is exactly what the destination accepted, a prefix of the chunk, even on failure |
| Streams.CopyPayload | crates/applesauce/src/threads/writer.rs:578-614 | reported progress is exactly what the destination took, even on failure; Ok means all of the source, in order, and always follows when there are no faults and the destination has room |
| Streams.EnsureIdenticalFiles | crates/applesauce/src/threads/writer.rs:666-695 | Ok only for equal streams, and always for them without I/O errors, whatever the buffer boundaries |
| Chunking.ChunksTile | crates/applesauce/src/threads/reader.rs:121-166 | the chunks concatenate to the file, number what its length calls for, and all but the last are full |
| Chunking.WithFileChunks | crates/applesauce/src/threads/reader.rs:114-172 | the receiver gets a prefix of the chunks; true means all of them and the expected length; with a receiver that stays, any other length, and only that, is an error |
| BlockWriting.WriteBlocks | crates/applesauce/src/threads/writer.rs:76-112 | every delivered block reaches the writer unless they exceed the size limit, the writer does not take them, or there is no room; progress always counts whole chunks from the first on, and on Ok all of them |
| BlockWriting.KeptFlattens | crates/applesauce-core/src/writer.rs:68-79 | the empty blocks a single-block writer takes no notice of cost no byte of data |
| BlockWriting.WriteCompressedBlocks | crates/applesauce/src/threads/writer.rs:114-128 | for any delivery: leaves the finished form of exactly its blocks when their count is right, and fails otherwise, also if it ended in Ok with items missing, but for the only block of a file without debug assertions; further failures are only the ones named |
| BlockWriting.LostBlockIsEmpty | crates/applesauce-core/src/writer.rs:100-104 | the attribute left in that one case holds no block and decodes to nothing |
| BlockWriting.WriteUncompressedBlocks | crates/applesauce/src/threads/writer.rs:227-250 | what is written is always a prefix of the decoded data and never longer than expected; Ok exactly when the blocks come to that length and were all written, so never for a delivery short of it |
| BlockWriting.ComparesWhole | crates/applesauce/src/threads/writer.rs:321-343 | reading and comparing block by block with nothing left over is comparing the whole decoded file |
| BlockWriting.VerifyManually | crates/applesauce/src/threads/writer.rs:321-343 | Ok only if every block decodes and together they are the destination, and always then without I/O errors on either side |
| QueuedWork.QueueDeliversResults | crates/applesauce/src/seq_queue.rs:117-181 | over every run of reader, workers and writer: what is delivered is the leading results in the order of the inputs, and the verdict is the due one: the writer's refusal of the next, or success when all went well, or a failure that occurred, unspecified only if more was to come or a worker panicked; only a panic over the last input may pass for success |
| QueuedWork.OneErrorIsReported | crates/applesauce/src/seq_queue.rs:147-181 | if only the last input fails, other than by a panic, or only reading does, the verdict is that very error |
| QueuedWork.PanicPassesForSuccess | crates/applesauce/src/seq_queue.rs:78-106 | a run of these threads in which the worker of the last input panics and the writer's loop returns Ok without it |
| QueuedWork.RefusalIsSequential | crates/applesauce/src/seq_queue.rs:147-163 | whatever the schedules, a writer that refuses is called for the same items as one that never does, up to the first it refuses, and its refusal is the verdict |
| QueuedWork.LawfulIsDisciplined | crates/applesauce/src/threads/compressing.rs:42-83 | unless a worker panics, these threads keep the discipline the queue needs |
| QueuedWork.NeverStuck | crates/applesauce/src/seq_queue.rs:117-181 | some thread can move until all of them are through: the writer has its verdict, the reader, also one whose writer gave up, has finished, and no worker has a slot left; for any capacity |
| QueuedWork.StepLowersBound | crates/applesauce/src/seq_queue.rs:117-181 | every step lowers a bound on the steps left, so every exchange ends |
| QueuedWork.Exchange | crates/applesauce/src/seq_queue.rs:147-163 | run under any schedule until every thread is through, the exchange delivers the leading results and ends with the due verdict |
| Pipeline.Work | crates/applesauce/src/threads/compressing.rs:42-83 | a worker completes its slot with the compressed or decompressed item, or its error |
| Pipeline.WorkAll | crates/applesauce/src/threads/compressing.rs:42-83 | items worked on by any threads are delivered in order under any schedule, up to the first that fails; failures are reported, but for a panic over the last item, with an error that occurred or an unspecified one, and with the very error of reading or of the last item if that is the only one |
| Pipeline.ThreadsExist | crates/applesauce/src/threads/reader.rs:227-231 | there are schedules for every queue capacity |
| Pipeline.QueueCompresses | crates/applesauce/src/threads/reader.rs:55-71 | over all runs: the writer's loop succeeds if and only if reading and every compression did, having received exactly the compressed chunks in order |
| Pipeline.CompressChunks | crates/applesauce/src/threads/reader.rs:55-71 | under any schedule delivers exactly the compressed chunks in order with their original sizes, failing exactly when reading or compressing does, and with the error of reading if that is all |
| Pipeline.DecompressBlocks | crates/applesauce/src/threads/reader.rs:72-93 | under any schedule, Ok when all blocks decode, and then everything they decode to; Ok otherwise only if the last one makes its worker panic, and then what the others decode to |
| Pipeline.DecodingUndoesCompressing | crates/applesauce/src/threads/compressing.rs:42-83 | decoding the compressed chunks gives the chunks back |
| Pipeline.ReadAndCompress | crates/applesauce/src/threads/reader.rs:48-71 | what a file's queue delivers: all its compressed chunks, if it has the expected length, and otherwise a failure |
| Pipeline.CompressFile | crates/applesauce/src/threads/reader.rs:48-71 | Ok means a file of the expected length whose chunks were compressed and stored completely; without I/O errors only the limits stop it |
| Pipeline.DecompressFile | crates/applesauce/src/threads/reader.rs:72-93 | Ok means data of the expected length was written, and it is what the file decodes to, or does without a last block that panics; never writes more than that; a file that decodes to that length is refused for I/O errors only |
| Pipeline.RestoredIsDecoded | crates/applesauce/src/threads/writer.rs:227-250 | success with a block missing takes an LZVN file whose last block fills the worker's whole buffer |
| Pipeline.MalformedFilePasses | crates/applesauce/src/threads/writer.rs:227-250 | a concrete file, with the right number of blocks, whose last block panics while the first has all the bytes expected |
| Pipeline.StoredAtWorst | crates/applesauce-core/src/compressor/lz.rs:88-113 | for the kinds with a stored form compressing never fails and no block grows by more than a byte |
| Pipeline.FitsStoredIsCompressible | crates/applesauce-core/src/compressor/zlib.rs:31-50 | for those kinds a file that fits stored is compressible if and only if it is within the size limit |
| Pipeline.TooLongIsRefused | crates/applesauce-core/src/compressor/zlib.rs:164-176 | a file of incompressible data that does not fit stored is never compressible |
| Pipeline.StoredFileDecodes | crates/applesauce-core/src/writer.rs:42-131 | what compressing leaves behind contains exactly the compressed chunks, inline or in the fork, and decodes to the file |
| Pipeline.DecompressAndVerify | crates/applesauce/src/threads/writer.rs:227-343 | what was stored decompresses, to the length its attribute says, to the file under any schedule, and verification of the result returns Ok |
| Pipeline.CompressThenDecompress | crates/applesauce/src/threads/writer.rs:114-250 | whole-path identity, under any schedule of the threads: succeeds if and only if the file can be stored, and then gives back its bytes, with a verification verdict of Ok |
| Pipeline.ThroughScratch | crates/applesauce/src/threads/writer.rs:138-178 | the same identity through staging and publishing under a granted reservation, which is given back in every case; the budget is stopped only by a payload that cannot be removed |
| ScratchBudget.TotalUpdate | crates/applesauce/src/scratch.rs:323-345 | changing one reservation changes the live total by exactly that much |
| ScratchBudget.StepKeepsInv | crates/applesauce/src/scratch.rs:273-345 | every critical section keeps used bytes equal to the live reservations and within the limit; no subtraction underflows |
| ScratchBudget.RunKeepsInv | crates/applesauce/src/scratch.rs:273-345 | the same over every interleaving |
| ScratchBudget.NoLostWakeup | crates/applesauce/src/scratch.rs:280-309 | over all runs, a sleeper that could go on has been notified and waking ends its wait, in particular after a stop or with nothing reserved |
| ScratchBudget.WaiterGetsOn | crates/applesauce/src/scratch.rs:280-309 | whoever waits has been notified or waits behind a reservation that its holder can give back |
| ScratchBudget.StepLowersBound | crates/applesauce/src/scratch.rs:280-345 | every call, notified wakeup, shrink and release lowers a bound on the steps left |
| ScratchBudget.EveryWaiterIsServed | crates/applesauce/src/scratch.rs:280-345 | runs are bounded in the calls to come, and go on until nobody waits and everything has been given back |
| ScratchBudget.Budget.AttemptReserve | crates/applesauce/src/scratch.rs:280-309 | grants exactly when the bytes are available and nothing stopped; otherwise sleeps or fails as named and takes nothing |
| ScratchBudget.Budget.ShrinkTo | crates/applesauce/src/scratch.rs:323-332 | gives back exactly the difference and wakes everyone |
| ScratchBudget.Budget.DropReservation | crates/applesauce/src/scratch.rs:339-345 | gives back the whole reservation and wakes everyone |
| ScratchBudget.Budget.StopAll | crates/applesauce/src/scratch.rs:274-278 | stops the budget and wakes everyone |
| MemoryStaging.MemoryPayload.Place | crates/applesauce/src/scratch.rs:215-215 | a cursor write into a vector with room is a store write, zero-filling a hole |
| MemoryStaging.MemoryPayload.WriteBytes | crates/applesauce/src/scratch.rs:190-216 | refines the plain store; rejects exactly writes ending past the limit and then changes nothing; grows at least to double or the limit |
| MemoryStaging.MemoryPayload.Seek | crates/applesauce/src/scratch.rs:176-183 | refines the plain store's seeks, rejecting exactly those before the start |
| MemoryStaging.MemoryPayload.Perform | crates/applesauce/src/scratch.rs:176-221 | any sequence of seeks and writes refines the plain store, within the limit throughout |
| MemoryStaging.MemoryPayload.ShrinkToFit | crates/applesauce/src/scratch.rs:151-155 | the staged buffer has exactly the contents and no spare room |
| Staging.ReservationCoversOutput | crates/applesauce/src/scratch.rs:84-93 | whatever the compressors produce, the complete fork fits the reservation less the attribute's share |
| Staging.ReservationInBytes | crates/applesauce/src/scratch.rs:84-93 | 66560 bytes for every 65536 of the file or part of that, and the fixed shares |
| Staging.StagedAtMost | crates/applesauce/src/scratch.rs:84-93 | every finished form of blocks within the buffers leaves the share for inline data free, and for the LZ kinds that of the trailer |
| Staging.FullBuffersTakeThat | crates/applesauce/src/scratch.rs:84-93 | full buffers take everything else, so that this is the exact maximum |
| Staging.StoredWithin | crates/applesauce-core/src/writer.rs:74-95 | the attribute never exceeds its maximum, and the fork stays within the write limit |
| Staging.ReservationNeverRefuses | crates/applesauce/src/threads/writer.rs:143-152 | under its reservation a complete file is refused only for the size limit or for 32 bits |
| Staging.StageCompressedFile | crates/applesauce/src/threads/writer.rs:138-178 | stages the finished form, which may exceed 32 bits by part of a trailer, and shrinks the reservation to exactly its size, which the assertion in shrink_to always allows |
| Staging.FinishedIsReadable | crates/applesauce-core/src/reader.rs:38-68 | a finished file reads back as exactly its blocks if and only if its fork is at most 32 bits long |
| Staging.PublishableIffStorable | crates/applesauce/src/threads/writer.rs:489-516 | a staged fork can be published exactly when it could have been written directly |
| Staging.Publish | crates/applesauce/src/threads/writer.rs:532-576 | the destination gets exactly the payload if that fits 32 bits; the reservation is given back after any outcome, and the budget stopped exactly if the payload cannot be removed |
| Staging.StageAndPublish | crates/applesauce/src/threads/writer.rs:138-178 | from the block queue to the destination: what arrives holds exactly the delivered blocks; what is refused could not have been stored directly; the reservation is given back in every case |
| Staging.StageUncompressedFile | crates/applesauce/src/threads/writer.rs:180-204 | never stages more than the reserved file size; Ok exactly for all of the data |
| SequentialQueue.FinalSuccess.MakeSuccess | crates/applesauce/src/seq_queue.rs:38-47 | joins Ok into the cell |
| SequentialQueue.FinalSuccess.MakeUnknownError | crates/applesauce/src/seq_queue.rs:49-58 | joins an unspecified error into the cell |
| SequentialQueue.FinalSuccess.MakeError | crates/applesauce/src/seq_queue.rs:60-69 | joins an explicit error into the cell |
| SequentialQueue.FinalSuccess.GetResult | crates/applesauce/src/seq_queue.rs:71-75 | Ok exactly for a success, the recorded error otherwise |
| SequentialQueue.ReadVerdict | crates/applesauce/src/seq_queue.rs:147-181 | success, the recorded error or an unspecified one, as the cell has it |
| SequentialQueue.JoinIsHighest | crates/applesauce/src/seq_queue.rs:33-76 | after any updates in any order the cell is at the highest of them, the first explicit error winning |
| SequentialQueue.JoinAssociates | crates/applesauce/src/seq_queue.rs:33-76 | updates combine associatively and repeating one changes nothing |
| SequentialQueue.StepKeepsInv | crates/applesauce/src/seq_queue.rs:117-181 | every action keeps delivered items the leading slots and success free of recorded errors |
| SequentialQueue.WrongVerdictIffGap | crates/applesauce/src/seq_queue.rs:170-180 | the verdict read is wrong if and only if the last slot is dropped and its error not yet recorded |
| SequentialQueue.OkIsWrongIffGap | crates/applesauce/src/seq_queue.rs:78-106 | the same condition, over all runs whatsoever |
| SequentialQueue.FirstErrorIsTheVerdict | crates/applesauce/src/seq_queue.rs:147-181 | over all runs, the verdict read is the first error recorded in the run, if there is one |
| SequentialQueue.MoreInTheChannel | crates/applesauce/src/seq_queue.rs:170-180 | over all runs, a receiver that stopped and finds another slot reports an unspecified failure; otherwise it reads the cell, and only once the sender is gone |
| SequentialQueue.OkMeansComplete | crates/applesauce/src/seq_queue.rs:146-181 | unless the last slot is dropped late, Ok means that every prepared item was delivered once, in order, and the sender finished Ok |
| SequentialQueue.LateDropLosesItem | crates/applesauce/src/seq_queue.rs:78-106 | from every state with the last slot still owed behind a finished sender, a plain drop of it can end in Ok without its item |
| SequentialQueue.DroppedItemReportedAsSuccess | crates/applesauce/src/seq_queue.rs:78-106 | a concrete run from the start that does so |
| SequentialQueue.SmoothRunSucceeds | crates/applesauce/src/seq_queue.rs:147-181 | if all slots finish, the sender finishes Ok and the callback accepts, then the result is Ok and the receiver gets there in bounded steps |
| SequentialQueue.FullChannelHasReader | crates/applesauce/src/seq_queue.rs:118-122 | while a sender waits for a full channel, the receiver can take or drain a slot, or the slot it awaits can be seen or is in a hand that can complete or abandon it |
| Batching.ActionKeepsFile | crates/applesauce/src/threads/reader.rs:233-254 | actions on a file keep its guard counting the threads at work and its reservation with its owner, and leave the coordinator's counts alone |
| Batching.CountsEqual | crates/applesauce/src/threads/batching.rs:89-94 | counting as many notices as files means one from every file |
| Batching.EmptyBatchHoldsNothing | crates/applesauce/src/threads/batching.rs:54-58 | whenever nothing is pending, nothing is reserved |
| Batching.ReserveKeepsInv | crates/applesauce/src/threads/batching.rs:46-82 | admission keeps the batch within the target, or alone in it |
| Batching.AllReceivedKeepsInv | crates/applesauce/src/threads/batching.rs:89-94 | the receive loop ends with every file of the batch received and the staged ones collected |
| Batching.FlushVolumesKeepsInv | crates/applesauce/src/threads/batching.rs:127-134 | after the flush the batch is empty and everything released |
| Batching.StepKeepsInv | crates/applesauce/src/threads/batching.rs:46-135 | every action of every thread keeps the protocol's invariant |
| Batching.RunKeepsInv | crates/applesauce/src/threads/batching.rs:46-191 | the invariant holds over every interleaving, failures included |
| Batching.OneNotice | crates/applesauce/src/threads/batching.rs:164-191 | a file gives at most one notice, only after its reader and its writer have both let go, carrying a staged file exactly when it carries a reservation |
| Batching.Barrier | crates/applesauce/src/threads/batching.rs:84-125 | while any file is with a publisher, no reader or writer is active and every admitted file's notice has been received |
| Batching.AdmissionWaitsForBatch | crates/applesauce/src/threads/batching.rs:46-135 | when admission can go on, every earlier file is settled: acknowledged or failed, inactive, released |
| Batching.OnlyFlushSettles | crates/applesauce/src/threads/batching.rs:127-134 | a file leaves its batch only through the volume flush |
| Batching.FlushedBeforeNextAdmission | crates/applesauce/src/threads/batching.rs:119-134 | between a file's publication and the next admission the flush of its batch has returned |
| Batching.CoordinatorNeverWaits | crates/applesauce/src/threads/batching.rs:46-68 | in every reachable state the coordinator's reservation is granted or refused at once |
| Batching.BatchSizeBound | crates/applesauce/src/threads/batching.rs:46-82 | live reservations are within the limit, and within the target unless the batch is one file larger than that |
| Batching.FailuresStop | crates/applesauce/src/threads/batching.rs:127-134 | exactly a failed flush or a payload that cannot be removed stops the budget |
| Batching.StoppedAdmitsNothing | crates/applesauce/src/scratch.rs:280-309 | after that no run admits another file |
| Batching.ActionGivesBack | crates/applesauce/src/scratch.rs:323-345 | what each thread's action gives back of a reservation, exactly |
| Batching.AdmissionTakes | crates/applesauce/src/threads/batching.rs:60-76 | admission takes exactly the file's reservation; a refusal takes nothing |
| Batching.FittingFileJoins | crates/applesauce/src/threads/batching.rs:54-58 | no drain is started for a file that fits beside what is reserved, nor for one that never can |
| Batching.FinishedIsClean | crates/applesauce/src/threads/mod.rs:328-341 | at the end everything is settled and released, each admitted file gave exactly one notice, and a file was left out only for its size or after a stop |
| Batching.WorkersMove | crates/applesauce/src/threads/reader.rs:233-254 | as long as a file's guard has not fired some reader or writer can move without failing, behind full queues, busy pools and a block queue that needs both ends |
| Batching.PublishersMove | crates/applesauce/src/threads/batching.rs:104-106 | a publisher waits for nobody, since acknowledgements go to an unbounded channel |
| Batching.HandingMoves | crates/applesauce/src/threads/batching.rs:108-117 | handing over never deadlocks on the publishers' bounded queue |
| Batching.NeverStuck | crates/applesauce/src/threads/batching.rs:84-135 | no reachable state before the end is a deadlock, however small the pools and queues |
| Batching.StepMakesProgress | crates/applesauce/src/threads/batching.rs:84-135 | every step moves a file on or, moving none, brings the coordinator closer to its end |
| Batching.EveryRunFinishes | crates/applesauce/src/threads/batching.rs:84-135 | every run is bounded in the number of files, and one in which nothing can move unhindered has finished the scan |
| BatchCoordinator.Batch.Others | crates/applesauce/src/threads/batching.rs:84-135 | any number of actions of any other threads leave the coordinator's books and the batch as they are |
| BatchCoordinator.Batch.ReceiveNotices | crates/applesauce/src/threads/batching.rs:89-94 | receives exactly as many notices as files are pending and returns, whatever the other threads do; the batch is unchanged |
| BatchCoordinator.Batch.WaitForPublishers | crates/applesauce/src/threads/batching.rs:108-117 | a send to the publishers' bounded queue does not wait for ever |
| BatchCoordinator.Batch.HandOver | crates/applesauce/src/threads/batching.rs:108-117 | hands over every staged file, waiting for room, and returns; the batch is unchanged |
| BatchCoordinator.Batch.ReceiveAcks | crates/applesauce/src/threads/batching.rs:118-121 | receives exactly as many acknowledgements as files were handed over and returns; the batch is unchanged |
| BatchCoordinator.Batch.Drain | crates/applesauce/src/threads/batching.rs:84-135 | from any batch, empty or not, returns with exactly this batch settled, nothing pending and nothing reserved; a failed flush stops the budget |
| BatchCoordinator.Batch.Submit | crates/applesauce/src/threads/batching.rs:46-82 | a file above the limit is always refused, any other only after a stop and always if that came before; one that fits beside what is reserved joins the batch, from which no file is drained; one larger than the target never stays in a batch; files submitted before keep their admission |
| BatchCoordinator.Batch.Scan | crates/applesauce/src/threads/mod.rs:328-341 | submitting every file and draining ends whatever the other threads do, each file with one notice or refused for cause |
| Statistics.Stats.AddStartFile | crates/applesauce/src/lib.rs:134-152 | adds one file, its length, what it takes on disk and its state to the 64-bit counters, each to its own |
| Statistics.Stats.AddEndFile | crates/applesauce/src/lib.rs:154-161 | adds what the file takes on disk now and whether it is compressed, and changes no other counter |
| Statistics.Context.ReportNewStats | crates/applesauce/src/threads/mod.rs:110-123 | records the new state unless the file is gone; a second report is the assertion failure |
| Statistics.Context.Drop | crates/applesauce/src/threads/mod.rs:125-137 | records the original state exactly when nothing was reported |
| Statistics.StepKeepsInv | crates/applesauce/src/threads/mod.rs:96-137 | every action keeps the counters equal to the files' recorded starts and ends |
| Statistics.NothingAfterDelivery | crates/applesauce/src/threads/mod.rs:89-94 | once nobody holds the operation nobody is left to record anything |
| Statistics.DeliveredTotals | crates/applesauce/src/threads/mod.rs:247-346 | one delivery, in which every counter is the sum over all files of one start and exactly one end, up to 64-bit wrap-around |
| Statistics.DeliveredFiles | crates/applesauce/src/threads/mod.rs:247-346 | the files summed up are the files scanned, each ended as reported or else as first seen |
| Statistics.DeliveredCounters | crates/applesauce/src/lib.rs:115-161 | what each delivered counter is the sum of, over the files, up to 64-bit wrap-around |
| Statistics.EndIsTheReport | crates/applesauce/src/threads/mod.rs:110-137 | a file's one end is what the report made in the run saw, and without a report what the scan saw |
| Statistics.NoSecondRecord | crates/applesauce/src/threads/mod.rs:110-123 | in every run no file is recorded twice and the assertion never fires |
| Statistics.OperationOutlivesContexts | crates/applesauce/src/threads/mod.rs:96-107 | the operation is released exactly when the scan and every context are done, and delivery waits for that |
| Statistics.LifeStep | crates/applesauce/src/threads/mod.rs:96-137 | a context begins with one holder, gains one per clone and hand-over, and is dropped exactly when the last has let go |
| Statistics.WrapAdds | crates/applesauce/src/lib.rs:134-161 | adding with wrap-around at every step is wrapping once at the end |
| Statistics.WrapIsRemainder | crates/applesauce/src/lib.rs:134-161 | wrap-around leaves the remainder modulo the 64-bit limit |
| Statistics.DeliveryIsNeverBlocked | crates/applesauce/src/threads/mod.rs:339-346 | until the totals are delivered some thread can move without cloning a context |
| Statistics.StepLowersBound | crates/applesauce/src/threads/mod.rs:96-137 | every step but a clone lowers a bound on the steps left, and a clone raises it by one |
| Statistics.DeliveryComes | crates/applesauce/src/threads/mod.rs:339-346 | a run is bounded by its files and the clones it makes, and until the delivery it can go on without making more |

## Left out

- Codec internals, backend selection and unsafe buffers: foreign code, represented by the hypothesis `BlockCodec.Faithful`; all three kinds are taken as built in.
- ZlibFormat.ReadBlockInfo: the source subtracts and adds without checks on arbitrary bytes (crates/applesauce-core/src/compressor/zlib.rs:81, 124, 200); where it would overflow the model gives `Panicked`, as a build with overflow checks does, and the wrap-around of a build without them is not modelled.
- BlockCodec.Decompress: LZVN's assertion that a full buffer violates (crates/applesauce-core/src/compressor/lzvn.rs:70) is in every build and is modelled as `Panicked`; LZFSE's is a debug assertion (crates/applesauce-core/src/compressor/lz.rs:135) and is not modelled, the release behaviour, an error, is.
- CompressedWriter.Writer.ForceResourceFork: called before the block is added, it leads to the block-count error, as in the source; no caller of it is modelled.
- BlockWriting.WriteBlocks: the largest compressed size is a parameter; the floating-point product it comes from (crates/applesauce/src/threads/writer.rs:92-93) is not modelled.
- Pipeline.CompressFile: that a chunk is already compressed and written while later ones are being read is modelled for the queue, not for the file being read and written at once. A writer's refusal is applied to the queue's whole delivery, which comes to the same (`QueuedWork.RefusalIsSequential`). The destination's resource fork starts out empty, as the scan refuses files that have one (crates/applesauce/src/info.rs:219-227).
- Pipeline.DecompressFile: after a failure to read a block, the blocks before it are not written. Decompressing by reading (crates/applesauce/src/threads/reader.rs:94-107), in which the system decodes, is `Chunking` and `BlockWriting` without workers and has no member of its own.
- Staging.StageCompressedFile: the payload is the plain store that `MemoryStaging` is proved to refine; disk payloads and an allocator that over-allocates on an exact shrink are not modelled.
- BufWriter and BufReader: writes and seeks reach the store at once, and a flush adds no byte.
- Batching.StepKeepsInv: notices and acknowledgements may be received in any order, which includes the order of the channels. The number of volumes is not modelled: a flush is one event that may fail. Granting a reservation and sending the file to the readers is one event, so waiting for room in their queue comes before it.
- SequentialQueue.StepKeepsInv: a mutex poisoned by a panic is not modelled, nor are memory-ordering details.
- Pipeline.WorkAll: a worker that panics drops its slot; that its thread then ends, so that a pool may run out of workers, is not modelled.
- ScratchBudget.EveryWaiterIsServed: that holders of reservations get on without waiting for a reservation is taken from the program; for batches it is part of `Batching.NeverStuck`.
- Ratios of the statistics and the printed report.
- Syscall wrappers (extended attributes, times, flags, volumes, process scanning in source_guard.rs, fsync_volume_np), directory walking, file classification, the command line, progress bars and tracing: environment or presentation.
- Files that change while they are read: a file is a fixed byte sequence; a wrong expected length is modelled.
