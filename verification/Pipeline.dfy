/** The whole path of one file: chunking, compressing, writing, reading back,
    decompressing and writing out. */
module Pipeline {
  import opened Bytes
  import opened Wrappers
  import opened Decmpfs
  import opened SeekableStore
  import opened Format
  import opened CompressedWriter
  import opened CompressedReader
  import opened BlockCodec
  import opened Streams
  import opened Chunking
  import opened BlockWriting
  import opened QueuedWork
  import Scratch = ScratchBudget
  import Staging
  import Queue = SequentialQueue

  const CAPACITY: nat := Scratch.COMPRESSED_BLOCK_CAPACITY

  // ----- compressor threads

  function CompressAll(kind: Kind, codec: Codec, chunks: seq<seq<byte>>): Result<seq<seq<byte>>> {
    if chunks == [] then Ok([])
    else match Compressed(kind, codec, chunks[0], CAPACITY)
      case Err(e) => Err(e)
      case Ok(block) =>
        match CompressAll(kind, codec, chunks[1..])
        case Err(e) => Err(e)
        case Ok(rest) => Ok([block] + rest)
  }

  /** What a worker makes of one item, for the slot it came with. */
  function Worked(kind: Kind, codec: Codec, compressing: bool, data: seq<byte>): Result<Chunk> {
    var made :=
      if compressing then Compressed(kind, codec, data, CAPACITY)
      else Decompressed(kind, codec, data, CAPACITY);
    if made.Err? then Err(made.error) else Ok(Chunk(made.value, |data|))
  }

  /** One item in a worker's output buffer. */
  method Work(kind: Kind, codec: Codec, compressing: bool, data: seq<byte>, buf: array<byte>) returns (r: Result<Chunk>)
    requires buf.Length == CAPACITY
    requires compressing ==> Faithful(kind, codec) && |data| <= BLOCK_SIZE
    modifies buf
    ensures r == Worked(kind, codec, compressing, data)
  {
    var size: Result<nat>;
    if compressing {
      size := Compress(kind, codec, buf, data);
    } else {
      size := Decompress(kind, codec, buf, data);
    }
    return if size.Err? then Err(size.error) else Ok(Chunk(buf[..size.value], |data|));
  }

  // ----- the block queue between the threads

  /** The channel's capacity, and how the threads around a queue are scheduled, whatever the
      workers' results are and however reading ends. */
  datatype Threads = Threads(
    capacity: nat,
    schedule: (seq<Result<Chunk>>, Result<()>) -> ((nat, Queue.State<Chunk, Error>) -> Queue.Event<Chunk, Error>))
  {
    ghost predicate Valid() {
      capacity > 0 && forall results, end :: Schedules(results, end, Accept, schedule(results, end))
    }
  }

  /** A callback that takes every chunk. What one does that refuses, `RefusalIsSequential` gives:
      it is called for the same chunks up to the first that it refuses. */
  function Accept(before: seq<Chunk>, chunk: Chunk): Option<Error> {
    None
  }

  /** There are threads for every capacity: nothing is claimed about none. */
  lemma ThreadsExist(capacity: nat)
    requires capacity > 0
    ensures exists threads: Threads :: threads.Valid() && threads.capacity == capacity
  {
    var threads := Threads(
      capacity,
      (results, end) => (time: nat, s: Queue.State<Chunk, Error>) => AnyMove(results, end, Accept, s));
    forall results, end ensures Schedules(results, end, Accept, threads.schedule(results, end)) {
      AnyMoveSchedules(results, end, Accept, threads.schedule(results, end));
    }
    assert threads.Valid() && threads.capacity == capacity;
  }

  function EndOf(verdict: Queue.Verdict<Error>): Result<()> {
    match verdict
    case Succeeded => Ok(())
    case FailedUnknown => Err(Other)
    case FailedWith(error) => Err(error)
  }

  /** Items worked on by whichever thread gets them and delivered through the queue, under any
      schedule: all of them in order, or those before the first that fails. A failure is
      reported, with an error that occurred or an unspecified one, and with the very error if it
      is the only one and nothing was to come behind it; only a panic over the last item may be
      taken for the end. */
  method WorkAll(kind: Kind, codec: Codec, compressing: bool, items: seq<seq<byte>>, end: Result<()>, threads: Threads)
    returns (delivery: Delivery)
    requires threads.Valid()
    requires compressing ==> Faithful(kind, codec) && forall item <- items :: |item| <= BLOCK_SIZE
    ensures |delivery.chunks| <= |items|
    ensures forall i :: 0 <= i < |delivery.chunks| ==>
      Worked(kind, codec, compressing, items[i]) == Ok(delivery.chunks[i])
    ensures |delivery.chunks| < |items| ==> Worked(kind, codec, compressing, items[|delivery.chunks|]).Err?
    ensures |delivery.chunks| == |items| && end.Ok? ==> delivery.end.Ok?
    ensures delivery.end.Ok? ==>
      end.Ok? && (|delivery.chunks| == |items| || PanicsAtLast(kind, codec, compressing, items, |delivery.chunks|))
    ensures delivery.end.Err? ==>
      || delivery.end.error == Other || end == delivery.end
      || exists i :: 0 <= i < |items| && Worked(kind, codec, compressing, items[i]) == Err(delivery.end.error)
    ensures |delivery.chunks| == |items| && end.Err? ==> delivery.end == end
    ensures |delivery.chunks| + 1 == |items| && end.Ok? ==>
      var last := Worked(kind, codec, compressing, items[|items| - 1]);
      last.Err? && (last.error != Panicked ==> delivery.end == Err(last.error))
  {
    var results: seq<Result<Chunk>> := [];
    for i := 0 to |items|
      invariant |results| == i
      invariant forall k :: 0 <= k < i ==> results[k] == Worked(kind, codec, compressing, items[k])
    {
      var buf := new byte[CAPACITY];
      var made := Work(kind, codec, compressing, items[i], buf);
      results := results + [made];
    }
    var chunks, verdict := Exchange(results, end, Accept, threads.capacity, threads.schedule(results, end));
    var n := |chunks|;
    if n == |items| && end.Err? {
      OneErrorIsReported(results, end, Accept, chunks, verdict, chunks, end.error);
    } else if n + 1 == |items| && end.Ok? && results[n].Err? && results[n] != Err(Panicked) {
      OneErrorIsReported(results, end, Accept, chunks, verdict, chunks, results[n].error);
    }
    delivery := Delivery(chunks, EndOf(verdict));
  }

  /** All items but the last are done, and that one makes its worker panic. */
  predicate PanicsAtLast(kind: Kind, codec: Codec, compressing: bool, items: seq<seq<byte>>, n: nat) {
    n + 1 == |items| && Worked(kind, codec, compressing, items[n]) == Err(Panicked)
  }

  lemma {:induction false} WorkedIsCompressAll(kind: Kind, codec: Codec, items: seq<seq<byte>>, chunks: seq<Chunk>)
    requires |chunks| == |items|
    requires forall i :: 0 <= i < |items| ==> Worked(kind, codec, true, items[i]) == Ok(chunks[i])
    ensures CompressAll(kind, codec, items) == Ok(Blocks(chunks))
    ensures Sum(OrigSizes(chunks)) == |Flatten(items)|
  {
    if items == [] {
    } else {
      WorkedIsCompressAll(kind, codec, items[1..], chunks[1..]);
      assert OrigSizes(chunks)[1..] == OrigSizes(chunks[1..]);
    }
  }

  lemma {:induction false} SomeWorkFails(kind: Kind, codec: Codec, items: seq<seq<byte>>, i: nat)
    requires i < |items| && Worked(kind, codec, true, items[i]).Err?
    ensures CompressAll(kind, codec, items).Err?
  {
    if i == 0 {
    } else {
      SomeWorkFails(kind, codec, items[1..], i - 1);
    }
  }

  lemma {:induction false} WorkedIsDecodedFile(kind: Kind, codec: Codec, items: seq<seq<byte>>, chunks: seq<Chunk>)
    requires |chunks| == |items|
    requires forall i :: 0 <= i < |items| ==> Worked(kind, codec, false, items[i]) == Ok(chunks[i])
    ensures DecodedFile(kind, codec, items, CAPACITY) == Ok(Flatten(Blocks(chunks)))
  {
    if items == [] {
    } else {
      WorkedIsDecodedFile(kind, codec, items[1..], chunks[1..]);
    }
  }

  lemma {:induction false} SomeBlockFails(kind: Kind, codec: Codec, items: seq<seq<byte>>, i: nat)
    requires i < |items| && Worked(kind, codec, false, items[i]).Err?
    ensures DecodedFile(kind, codec, items, CAPACITY).Err?
  {
    if i == 0 {
    } else {
      SomeBlockFails(kind, codec, items[1..], i - 1);
    }
  }

  /** Over all runs of reader, compressor threads and writer, whatever the interleaving: the
      writer's loop succeeds if and only if reading and every compression did, and has then
      received exactly the compressed chunks, in order. */
  lemma QueueCompresses(
      kind: Kind, codec: Codec, chunks: seq<seq<byte>>, results: seq<Result<Chunk>>, end: Result<()>,
      s: Queue.State<Chunk, Error>, events: seq<Queue.Event<Chunk, Error>>, s': Queue.State<Chunk, Error>)
    requires |results| == |chunks|
    requires forall i :: 0 <= i < |chunks| ==> results[i] == Worked(kind, codec, true, chunks[i])
    requires Queue.Initial(s) && LawfulRun(results, end, Accept, s, events, s') && s'.receiver.Done?
    ensures s'.receiver.result.Succeeded? <==> end.Ok? && CompressAll(kind, codec, chunks).Ok?
    ensures s'.receiver.result.Succeeded? ==> CompressAll(kind, codec, chunks) == Ok(Blocks(s'.delivered))
  {
    QueueDeliversResults(results, end, Accept, s, events, s');
    var n := |s'.delivered|;
    if n == |chunks| {
      WorkedIsCompressAll(kind, codec, chunks, s'.delivered);
    } else {
      OnlyFullLzvnPanics(kind, codec, chunks[n], CAPACITY);
      SomeWorkFails(kind, codec, chunks, n);
    }
  }

  /** Compressing chunks through the queue delivers exactly their compressed forms in order,
      whatever the interleaving; it fails exactly when reading or compressing does. */
  method CompressChunks(kind: Kind, codec: Codec, chunks: seq<seq<byte>>, end: Result<()>, threads: Threads)
    returns (delivery: Delivery)
    requires Faithful(kind, codec) && threads.Valid()
    requires forall chunk <- chunks :: 0 < |chunk| <= BLOCK_SIZE
    ensures delivery.end.Ok? <==> end.Ok? && CompressAll(kind, codec, chunks).Ok?
    ensures delivery.end.Ok? ==>
      Blocks(delivery.chunks) == CompressAll(kind, codec, chunks).value && |delivery.chunks| == |chunks|
    ensures CompressAll(kind, codec, chunks).Ok? && end.Err? ==> delivery.end == end
    ensures delivery.end.Ok? ==> Sum(OrigSizes(delivery.chunks)) == |Flatten(chunks)|
    ensures forall chunk <- delivery.chunks :: 0 < |chunk.block| <= CAPACITY
  {
    delivery := WorkAll(kind, codec, true, chunks, end, threads);
    var n := |delivery.chunks|;
    if n == |chunks| {
      WorkedIsCompressAll(kind, codec, chunks, delivery.chunks);
    } else {
      OnlyFullLzvnPanics(kind, codec, chunks[n], CAPACITY);
      SomeWorkFails(kind, codec, chunks, n);
    }
    forall i | 0 <= i < |delivery.chunks| ensures 0 < |delivery.chunks[i].block| <= CAPACITY {
      FallbackPreserves(kind, codec, chunks[i], CAPACITY, CAPACITY);
    }
  }

  /** What the blocks before the last decode to, if the last one makes its worker panic. */
  function DecodedButLast(kind: Kind, codec: Codec, blocks: seq<seq<byte>>): Result<seq<byte>> {
    if blocks != [] && Decompressed(kind, codec, blocks[|blocks| - 1], CAPACITY) == Err(Panicked) then
      DecodedFile(kind, codec, blocks[..|blocks| - 1], CAPACITY)
    else Err(Other)
  }

  /** Decompressing blocks through the queue delivers everything they decode to, and does so
      whenever they decode. It can end in Ok otherwise only without the last block, if that
      one makes its worker panic. */
  method DecompressBlocks(kind: Kind, codec: Codec, blocks: seq<seq<byte>>, threads: Threads)
    returns (delivery: Delivery)
    requires threads.Valid()
    ensures DecodedFile(kind, codec, blocks, CAPACITY).Ok? ==> delivery.end.Ok?
    ensures delivery.end.Ok? ==>
      var data := Flatten(Blocks(delivery.chunks));
      DecodedFile(kind, codec, blocks, CAPACITY) == Ok(data) || DecodedButLast(kind, codec, blocks) == Ok(data)
    ensures delivery.end.Ok? && DecodedFile(kind, codec, blocks, CAPACITY).Ok? ==>
      Flatten(Blocks(delivery.chunks)) == DecodedFile(kind, codec, blocks, CAPACITY).value
  {
    delivery := WorkAll(kind, codec, false, blocks, Ok(()), threads);
    var n := |delivery.chunks|;
    WorkedIsDecodedFile(kind, codec, blocks[..n], delivery.chunks);
    if n == |blocks| {
      assert blocks[..n] == blocks;
    } else {
      SomeBlockFails(kind, codec, blocks, n);
    }
  }

  /** Decompressing undoes compressing, block by block. */
  lemma {:induction false} DecodingUndoesCompressing(kind: Kind, codec: Codec, chunks: seq<seq<byte>>, room: nat)
    requires Faithful(kind, codec) && BLOCK_SIZE < room
    requires forall chunk <- chunks :: 0 < |chunk| <= BLOCK_SIZE
    requires CompressAll(kind, codec, chunks).Ok?
    ensures var blocks := CompressAll(kind, codec, chunks).value;
      && |blocks| == |chunks| && (forall block <- blocks :: 0 < |block| <= CAPACITY)
      && DecodedFile(kind, codec, blocks, room) == Ok(Flatten(chunks))
  {
    if chunks == [] {
    } else {
      FallbackPreserves(kind, codec, chunks[0], CAPACITY, room);
      DecodingUndoesCompressing(kind, codec, chunks[1..], room);
      var blocks := CompressAll(kind, codec, chunks).value;
      assert blocks[1..] == CompressAll(kind, codec, chunks[1..]).value;
    }
  }

  // ----- one file, both ways

  /** Compresses a file of an expected length: reads it in chunks, compresses each, and writes
      attribute and fork. */
  method CompressFile(
      kind: Kind, codec: Codec, file: Source, expectedLen: nat, dest: Store, maxCompressedSize: nat, assertions: bool,
      threads: Threads)
    returns (r: Result<seq<byte>>)
    requires Faithful(kind, codec) && threads.Valid()
    requires file.Valid() && file.pos == 0
    requires dest.data == [] && dest.pos == 0
    modifies file, dest
    ensures r.Ok? ==> |file.content| == expectedLen && CompressAll(kind, codec, Chunks(file.content)).Ok?
    ensures r.Ok? ==>
      var blocks := CompressAll(kind, codec, Chunks(file.content)).value;
      && Storable(kind, blocks, maxCompressedSize, dest.writeLimit)
      && Stored(kind, expectedLen, blocks, r.value, dest.data)
    ensures old(file.Calm()) && dest.reliable && |file.content| == expectedLen && r.Err? ==>
      var blocks := CompressAll(kind, codec, Chunks(file.content));
      blocks.Err? || !Storable(kind, blocks.value, maxCompressedSize, dest.writeLimit)
  {
    var delivery := ReadAndCompress(kind, codec, file, expectedLen, threads);
    KeptWhole(NumBlocks(expectedLen) <= 1, delivery.chunks);
    r := WriteCompressedBlocks(kind, expectedLen, dest, delivery, maxCompressedSize, assertions);
  }

  /** The reader and the compressor threads: what the block queue of a file delivers. */
  method ReadAndCompress(kind: Kind, codec: Codec, file: Source, expectedLen: nat, threads: Threads)
    returns (delivery: Delivery)
    requires Faithful(kind, codec) && threads.Valid()
    requires file.Valid() && file.pos == 0
    modifies file
    ensures delivery.end.Ok? ==>
      && |file.content| == expectedLen && CompressAll(kind, codec, Chunks(file.content)).Ok?
      && Blocks(delivery.chunks) == CompressAll(kind, codec, Chunks(file.content)).value
      && |delivery.chunks| == NumBlocks(expectedLen)
    ensures forall chunk <- delivery.chunks :: 0 < |chunk.block| <= CAPACITY
    ensures old(file.Calm()) && |file.content| == expectedLen && CompressAll(kind, codec, Chunks(file.content)).Ok? ==>
      delivery.end.Ok?
  {
    var receiver := new ChunkReceiver(None);
    assert file.content[0..] == file.content;
    ChunksTile(file.content);
    var complete := WithFileChunks(file, expectedLen, receiver);
    assert complete.Ok? ==> complete.value;
    var end := if complete.Err? then Err(complete.error) else Ok(());
    delivery := CompressChunks(kind, codec, receiver.chunks, end, threads);
  }

  /** All blocks of a compressed file. */
  method GatherBlocks(attribute: seq<byte>, fork: Store) returns (r: Result<(Kind, seq<seq<byte>>)>)
    modifies fork`pos
    ensures r.Ok? ==>
      && Contents(attribute, fork.data).Ok? && r.value.1 == Contents(attribute, fork.data).value.1
      && (r.value.1 != [] ==> r.value.0 == Contents(attribute, fork.data).value.0)
    ensures fork.reliable && Contents(attribute, fork.data).Ok? ==> r.Ok?
  {
    var collect := (kind: Kind) => ((acc: (Kind, seq<seq<byte>>), block: seq<byte>) => Ok((kind, acc.1 + [block])));
    var start: (Kind, seq<seq<byte>>) := (Zlib, []);
    ghost var contents := Contents(attribute, fork.data);
    if contents.Ok? {
      CollectGathers(contents.value.0, collect(contents.value.0), start, contents.value.1);
    }
    r := WithCompressedBlocks(attribute, fork, collect, start);
  }

  /** What a compressed file decodes to. */
  function Decoded(attribute: seq<byte>, fork: seq<byte>, codecs: Kind -> Codec): Result<seq<byte>> {
    match Contents(attribute, fork)
    case Err(e) => Err(e)
    case Ok((kind, blocks)) => DecodedFile(kind, codecs(kind), blocks, CAPACITY)
  }

  /** What a decompressor that reports success may have written: what the file decodes to or,
      if the last block makes its worker panic, what the blocks before it decode to. */
  function Restored(attribute: seq<byte>, fork: seq<byte>, codecs: Kind -> Codec): Result<seq<byte>> {
    match Contents(attribute, fork)
    case Err(e) => Err(e)
    case Ok((kind, blocks)) =>
      var decoded := DecodedFile(kind, codecs(kind), blocks, CAPACITY);
      if decoded.Ok? then decoded else DecodedButLast(kind, codecs(kind), blocks)
  }

  /** Decompresses a file: reads its blocks, decompresses each, and writes them out. Ok means
      the expected length of data, and so the whole file, unless the blocks of a malformed
      file come to that length without its last one. */
  method DecompressFile(
      attribute: seq<byte>, fork: Store, codecs: Kind -> Codec, expectedLen: nat, destination: Sink, threads: Threads)
    returns (r: Result<()>)
    requires threads.Valid()
    modifies fork`pos, destination
    ensures |destination.received| <= |old(destination.received)| + expectedLen
    ensures r.Ok? ==>
      && Restored(attribute, fork.data, codecs).Ok? && |Restored(attribute, fork.data, codecs).value| == expectedLen
      && destination.received == old(destination.received) + Restored(attribute, fork.data, codecs).value
    ensures fork.reliable && old(destination.Calm()) && old(destination.Room(expectedLen)) && r.Err? ==>
      Decoded(attribute, fork.data, codecs).Err? || |Decoded(attribute, fork.data, codecs).value| != expectedLen
  {
    var gathered :- GatherBlocks(attribute, fork);
    var (kind, blocks) := gathered;
    var delivery := DecompressBlocks(kind, codecs(kind), blocks, threads);
    r := WriteUncompressedBlocks(expectedLen, destination, delivery);
  }

  /** Only an LZVN block that decodes to the whole of the worker's buffer can be lost like that. */
  lemma RestoredIsDecoded(attribute: seq<byte>, fork: seq<byte>, codecs: Kind -> Codec)
    ensures Decoded(attribute, fork, codecs).Ok? ==>
      Restored(attribute, fork, codecs) == Decoded(attribute, fork, codecs)
    ensures Restored(attribute, fork, codecs).Ok? && Decoded(attribute, fork, codecs).Err? ==>
      && Contents(attribute, fork).Ok?
      && var (kind, blocks) := Contents(attribute, fork).value;
      && kind.Lzvn? && blocks != []
      && var decoded := codecs(kind).decode(blocks[|blocks| - 1], CAPACITY);
      decoded.Some? && |decoded.value| == CAPACITY
  {
    if Contents(attribute, fork).Ok? {
      var (kind, blocks) := Contents(attribute, fork).value;
      if blocks != [] {
        OnlyFullLzvnPanics(kind, codecs(kind), blocks[|blocks| - 1], CAPACITY);
      }
    }
  }

  /** Such a file: the first of its two blocks has all of its 65537 bytes, and the second one
      fills the buffer. */
  lemma MalformedFilePasses()
    ensures var blocks := [[0x78, 7] + LittleEndian(BLOCK_SIZE + 1, 8), [0x78, 7] + LittleEndian(CAPACITY, 8)];
      && NumBlocks(BLOCK_SIZE + 1) == |blocks|
      && DecodedFile(Lzvn, RunCodec(), blocks, CAPACITY).Err?
      && DecodedButLast(Lzvn, RunCodec(), blocks) == Ok(Run(7, BLOCK_SIZE + 1))
  {
    var first, last := [0x78, 7] + LittleEndian(BLOCK_SIZE + 1, 8), [0x78, 7] + LittleEndian(CAPACITY, 8);
    EncodedRun(7, BLOCK_SIZE + 1);
    EncodedRun(7, CAPACITY);
    MalformedBlocks(Lzvn, RunCodec(), first, last, Run(7, BLOCK_SIZE + 1));
  }

  lemma MalformedBlocks(kind: Kind, codec: Codec, first: seq<byte>, last: seq<byte>, data: seq<byte>)
    requires Decompressed(kind, codec, first, CAPACITY) == Ok(data)
    requires Decompressed(kind, codec, last, CAPACITY) == Err(Panicked)
    ensures DecodedFile(kind, codec, [first, last], CAPACITY).Err?
    ensures DecodedButLast(kind, codec, [first, last]) == Ok(data)
  {
    var blocks := [first, last];
    assert blocks[1..] == [last] && blocks[..1] == [first] && [first][1..] == [];
    assert DecodedFile(kind, codec, blocks[1..], CAPACITY).Err?;
    assert DecodedFile(kind, codec, [first][1..], CAPACITY) == Ok([]) && data + [] == data;
  }

  lemma {:induction false} CollectGathers(
      kind: Kind, f: ((Kind, seq<seq<byte>>), seq<byte>) -> Result<(Kind, seq<seq<byte>>)>,
      acc: (Kind, seq<seq<byte>>), blocks: seq<seq<byte>>)
    requires forall a: (Kind, seq<seq<byte>>), b: seq<byte> :: f(a, b) == Ok((kind, a.1 + [b]))
    ensures FoldBlocks(f, acc, blocks) == Ok((if blocks == [] then acc.0 else kind, acc.1 + blocks))
    decreases |blocks|
  {
    if blocks == [] {
      assert acc.1 + blocks == acc.1;
    } else {
      CollectGathers(kind, f, (kind, acc.1 + [blocks[0]]), blocks[1..]);
      assert acc.1 + [blocks[0]] + blocks[1..] == acc.1 + blocks;
    }
  }

  /** Whether a file can be compressed: every chunk compresses, the total is within the
      limit, and what is not small enough for the attribute fits a 32-bit fork. */
  predicate Compressible(kind: Kind, codec: Codec, content: seq<byte>, maxCompressedSize: nat) {
    var blocks := CompressAll(kind, codec, Chunks(content));
    blocks.Ok? && Storable(kind, blocks.value, maxCompressedSize, U32_MAX)
  }

  /** For the kinds with a stored form, compressing never fails and no block grows by more
      than its marker. */
  lemma {:induction false} StoredAtWorst(kind: Kind, codec: Codec, chunks: seq<seq<byte>>)
    requires Faithful(kind, codec) && !kind.Lzfse?
    requires forall chunk <- chunks :: 0 < |chunk| <= BLOCK_SIZE
    ensures CompressAll(kind, codec, chunks).Ok?
    ensures var blocks := CompressAll(kind, codec, chunks).value;
      |blocks| == |chunks| && forall i :: 0 <= i < |blocks| ==> |blocks[i]| <= |chunks[i]| + 1
  {
    if chunks == [] {
    } else {
      FallbackPreserves(kind, codec, chunks[0], CAPACITY, CAPACITY);
      StoredAtWorst(kind, codec, chunks[1..]);
    }
  }

  lemma {:induction false} ChunkSizes(content: seq<byte>, i: nat)
    requires i < |Chunks(content)|
    ensures i < |StoredSizes(|content|)| && StoredSizes(|content|)[i] == |Chunks(content)[i]| + 1
    decreases |content|
  {
    if i == 0 {
    } else {
      ChunkSizes(content[BLOCK_SIZE..], i - 1);
    }
  }

  /** So for them a file that fits stored is compressible exactly within the size limit. */
  lemma FitsStoredIsCompressible(kind: Kind, codec: Codec, content: seq<byte>, maxCompressedSize: nat)
    requires Faithful(kind, codec) && !kind.Lzfse? && FitsStored(kind, |content|)
    ensures CompressAll(kind, codec, Chunks(content)).Ok?
    ensures Compressible(kind, codec, content, maxCompressedSize) <==>
      |Flatten(CompressAll(kind, codec, Chunks(content)).value)| <= maxCompressedSize
  {
    ChunksTile(content);
    StoredAtWorst(kind, codec, Chunks(content));
    var sizes := Sizes(CompressAll(kind, codec, Chunks(content)).value);
    forall i | 0 <= i < |sizes| ensures sizes[i] <= StoredSizes(|content|)[i] {
      ChunkSizes(content, i);
    }
    AdmittedForksFit(kind, |content|);
    assert NoLarger(sizes, StoredSizes(|content|)) && Fits(kind, sizes, U32_MAX);
  }

  /** A codec that finds nothing to compress. */
  function StoringCodec(): Codec {
    Codec((src: seq<byte>, cap: nat) => None, (src: seq<byte>, room: nat) => None)
  }

  lemma {:induction false} StoringSizes(kind: Kind, chunks: seq<seq<byte>>)
    requires !kind.Lzfse?
    ensures CompressAll(kind, StoringCodec(), chunks).Ok?
    ensures var blocks := CompressAll(kind, StoringCodec(), chunks).value;
      |blocks| == |chunks| && forall i :: 0 <= i < |blocks| ==> |blocks[i]| == |chunks[i]| + 1
  {
    if chunks == [] {
    } else {
      StoringSizes(kind, chunks[1..]);
    }
  }

  /** And incompressible data that does not fit stored is refused, whatever the size limit. */
  lemma TooLongIsRefused(kind: Kind, content: seq<byte>, maxCompressedSize: nat)
    requires !kind.Lzfse? && !FitsStored(kind, |content|)
    ensures Faithful(kind, StoringCodec())
    ensures !Compressible(kind, StoringCodec(), content, maxCompressedSize)
  {
    ChunksTile(content);
    StoringSizes(kind, Chunks(content));
    StoredSizesSum(|content|);
    var sizes := Sizes(CompressAll(kind, StoringCodec(), Chunks(content)).value);
    forall i | 0 <= i < |sizes| ensures sizes[i] == StoredSizes(|content|)[i] {
      ChunkSizes(content, i);
    }
    assert sizes == StoredSizes(|content|);
  }

  /** What compressing leaves behind contains exactly the compressed chunks, and they decode
      to the file. */
  lemma StoredFileDecodes(
      kind: Kind, codec: Codec, content: seq<byte>, attribute: seq<byte>, fork: seq<byte>, room: nat)
    requires Faithful(kind, codec) && |content| < U64_LIMIT && BLOCK_SIZE < room
    requires CompressAll(kind, codec, Chunks(content)).Ok?
    requires var blocks := CompressAll(kind, codec, Chunks(content)).value;
      Stored(kind, |content|, blocks, attribute, fork) && (StoredInline(blocks) || Fits(kind, Sizes(blocks), U32_MAX))
    ensures var blocks := CompressAll(kind, codec, Chunks(content)).value;
      Contents(attribute, fork) == Ok((kind, blocks)) && DecodedFile(kind, codec, blocks, room) == Ok(content)
  {
    ChunksTile(content);
    DecodingUndoesCompressing(kind, codec, Chunks(content), room);
    var blocks := CompressAll(kind, codec, Chunks(content)).value;
    if StoredInline(blocks) {
      if blocks != [] {
        assert blocks[1..] == [];
        assert blocks[0] + [] == blocks[0];
        assert Flatten(blocks) == blocks[0] && blocks == [blocks[0]];
      }
      InlineRoundTrip(kind, |content|, Flatten(blocks), fork);
    } else {
      ForkRoundTrip(kind, |content|, blocks);
    }
  }

  /** The identity of the whole path: for every file, kind and faithful codec, however reads
      and writes are broken up and the threads on either way are scheduled, compressing and
      then decompressing gives the file back exactly when it can be stored at all, and
      verification agrees. */
  method CompressThenDecompress(
      kind: Kind, codec: Codec, content: seq<byte>, maxCompressedSize: nat, assertions: bool,
      readScript: seq<ReadEvent>, writeScript: seq<WriteEvent>, threads: Threads, threads': Threads)
    returns (r: Result<seq<byte>>, verified: Result<()>)
    requires Faithful(kind, codec) && |content| < U64_LIMIT && threads.Valid() && threads'.Valid()
    requires ReadFault !in readScript && WriteFault !in writeScript && WriteNothing !in writeScript
    ensures r.Ok? <==> Compressible(kind, codec, content, maxCompressedSize)
    ensures r.Ok? ==> r.value == content && verified.Ok?
  {
    verified := Err(Other);
    var file := new Source(content, readScript);
    var dest := new Store(U32_MAX, U32_MAX, true);
    var attribute :- CompressFile(kind, codec, file, |content|, dest, maxCompressedSize, assertions, threads);
    var restored;
    restored, verified := DecompressAndVerify(kind, codec, content, attribute, dest.data, writeScript, threads');
    r := Ok(restored);
  }

  /** The way back: what compressing left behind decompresses, to the length that the attribute
      says, to the file, and the result passes verification. */
  method DecompressAndVerify(
      kind: Kind, codec: Codec, content: seq<byte>, attribute: seq<byte>, stored: seq<byte>, script: seq<WriteEvent>,
      threads: Threads)
    returns (restored: seq<byte>, verified: Result<()>)
    requires Faithful(kind, codec) && |content| < U64_LIMIT && threads.Valid()
    requires WriteFault !in script && WriteNothing !in script
    requires CompressAll(kind, codec, Chunks(content)).Ok?
    requires var blocks := CompressAll(kind, codec, Chunks(content)).value;
      Stored(kind, |content|, blocks, attribute, stored) && (StoredInline(blocks) || Fits(kind, Sizes(blocks), U32_MAX))
    ensures restored == content && verified.Ok?
  {
    StoredFileDecodes(kind, codec, content, attribute, stored, CAPACITY);
    StoredFileDecodes(kind, codec, content, attribute, stored, BLOCK_SIZE + 1);
    var fork := new Store.Holding(stored, true);
    var destination := new Sink(script, None);
    StoredSays(kind, |content|, CompressAll(kind, codec, Chunks(content)).value, attribute, stored);
    var expectedLen := Described(attribute).value.2.uncompressedSize;
    var decompressed := DecompressFile(attribute, fork, _ => codec, expectedLen, destination, threads);
    RestoredIsDecoded(attribute, stored, _ => codec);
    assert decompressed.Ok? && destination.received == content;
    var original := new Store.Holding(stored, true);
    verified := VerifyManually(attribute, original, _ => codec, Unread(destination.received, None));
    restored := destination.received;
  }

  /** The same through scratch space: when the budget grants the worst-case reservation, the
      file is staged, published, decompressed and verified, and comes back exactly when it can
      be stored at all; in any case the budget is left as it was. */
  method ThroughScratch(
      kind: Kind, codec: Codec, content: seq<byte>, maxCompressedSize: nat, assertions: bool, budget: Scratch.Budget,
      thread: nat, closes: bool,
      readScript: seq<ReadEvent>, stagedScript: seq<ReadEvent>, publishScript: seq<WriteEvent>,
      writeScript: seq<WriteEvent>,
      threads: Threads, threads': Threads)
    returns (r: Result<seq<byte>>, verified: Result<()>)
    requires Faithful(kind, codec) && |content| < U64_LIMIT && threads.Valid() && threads'.Valid()
    requires budget.Valid() && thread !in budget.waiting && !budget.stopped
    requires Staging.CompressedReservationSize(kind, |content|) <= budget.limit - budget.used
    requires ReadFault !in readScript && ReadFault !in stagedScript
    requires WriteFault !in publishScript && WriteNothing !in publishScript
    requires WriteFault !in writeScript && WriteNothing !in writeScript
    modifies budget
    ensures budget.Valid() && budget.used == old(budget.used) && (closes ==> !budget.stopped)
    ensures r.Ok? <==> Compressible(kind, codec, content, maxCompressedSize)
    ensures r.Ok? ==> r.value == content && verified.Ok?
  {
    var held := Staging.CompressedReservationSize(kind, |content|);
    ghost var id := |budget.live|;
    var outcome := budget.AttemptReserve(thread, held);
    assert outcome.Granted? && budget.used == old(budget.used) + held;
    var file := new Source(content, readScript);
    var delivery := ReadAndCompress(kind, codec, file, |content|, threads);
    var published := Staging.StageAndPublish(
      kind, |content|, delivery, maxCompressedSize, budget, id, held, assertions, true, closes, stagedScript,
      publishScript);
    if published.Err? {
      return Err(published.error), Err(Other);
    }
    var (fork, attribute) := published.value;
    var restored;
    restored, verified := DecompressAndVerify(kind, codec, content, attribute, fork, writeScript, threads');
    r := Ok(restored);
  }
}
