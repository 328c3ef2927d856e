/** The writer thread's loops over the chunks a block queue delivers. */
module BlockWriting {
  import opened Bytes
  import opened Wrappers
  import opened Decmpfs
  import opened Format
  import opened CompressedWriter
  import opened BlockCodec
  import opened CompressedReader
  import opened Streams
  import SeekableStore

  datatype Chunk = Chunk(block: seq<byte>, origSize: nat)

  /** What draining a block queue comes to: the chunks its callback is offered, and the
      result if the callback accepts them all. */
  datatype Delivery = Delivery(chunks: seq<Chunk>, end: Result<()>)

  function Blocks(chunks: seq<Chunk>): (blocks: seq<seq<byte>>)
    ensures |blocks| == |chunks|
    ensures forall i :: 0 <= i < |chunks| ==> blocks[i] == chunks[i].block
  {
    if chunks == [] then [] else [chunks[0].block] + Blocks(chunks[1..])
  }

  function OrigSizes(chunks: seq<Chunk>): seq<nat> {
    seq(|chunks|, i requires 0 <= i < |chunks| => chunks[i].origSize)
  }

  lemma OrigSizesStep(chunks: seq<Chunk>, i: nat)
    requires i < |chunks|
    ensures Sum(OrigSizes(chunks[..i + 1])) == Sum(OrigSizes(chunks[..i])) + chunks[i].origSize
  {
    assert OrigSizes(chunks[..i + 1]) == OrigSizes(chunks[..i]) + [chunks[i].origSize];
    SumSnoc(OrigSizes(chunks[..i]), chunks[i].origSize);
  }

  lemma BlocksStep(blocks: seq<seq<byte>>, i: nat)
    requires i < |blocks|
    ensures blocks[..i + 1] == blocks[..i] + [blocks[i]]
    ensures |Flatten(blocks[..i + 1])| == |Flatten(blocks[..i])| + |blocks[i]| <= |Flatten(blocks)|
  {
    assert blocks[..i + 1] == blocks[..i] + [blocks[i]];
    FlattenSnoc(blocks[..i], blocks[i]);
    assert blocks == blocks[..i + 1] + blocks[i + 1..];
    FlattenAppend(blocks[..i + 1], blocks[i + 1..]);
  }

  // ----- the blocks a writer keeps

  /** A writer for a file of a single block takes no notice of empty blocks before the first
      that is not; any other block is kept. */
  function Kept(single: bool, blocks: seq<seq<byte>>): (kept: seq<seq<byte>>)
    ensures |kept| <= |blocks|
    ensures single && kept != [] ==> kept[0] != []
  {
    if single && blocks != [] && blocks[0] == [] then Kept(single, blocks[1..]) else blocks
  }

  function KeptNext(single: bool, before: seq<seq<byte>>, block: seq<byte>): seq<seq<byte>> {
    if single && before == [] && block == [] then [] else before + [block]
  }

  lemma {:induction false} KeptSnoc(single: bool, blocks: seq<seq<byte>>, block: seq<byte>)
    ensures Kept(single, blocks + [block]) == KeptNext(single, Kept(single, blocks), block)
  {
    if blocks == [] {
      assert [block][1..] == [];
    } else if single && blocks[0] == [] {
      assert (blocks + [block])[1..] == blocks[1..] + [block];
      KeptSnoc(single, blocks[1..], block);
    }
  }

  lemma {:induction false} KeptPrefix(single: bool, blocks: seq<seq<byte>>, i: nat)
    requires i <= |blocks|
    ensures Kept(single, blocks[..i]) <= Kept(single, blocks)
  {
    if i == 0 {
    } else if single && blocks[0] == [] {
      assert blocks[..i][1..] == blocks[1..][..i - 1];
      KeptPrefix(single, blocks[1..], i - 1);
    }
  }

  /** No byte of data is lost by that. */
  lemma {:induction false} KeptFlattens(single: bool, blocks: seq<seq<byte>>)
    ensures Flatten(Kept(single, blocks)) == Flatten(blocks)
  {
    if single && blocks != [] && blocks[0] == [] {
      KeptFlattens(single, blocks[1..]);
    }
  }

  predicate NothingEmpty(chunks: seq<Chunk>) {
    forall chunk <- chunks :: chunk.block != []
  }

  lemma KeptWhole(single: bool, chunks: seq<Chunk>)
    requires NothingEmpty(chunks)
    ensures Kept(single, Blocks(chunks)) == Blocks(chunks)
    ensures forall block <- Blocks(chunks) :: block != []
  {
    if chunks != [] {
      assert chunks[0] in chunks;
    }
  }

  predicate Oversized(blocks: seq<seq<byte>>) {
    exists block <- blocks :: |block| > U32_MAX
  }

  // ----- the writing loop

  /** Whether the blocks' data, without header completion or trailer, can be written by a
      writer that began with a single block or not. */
  ghost predicate HasRoom(writer: Writer, single: bool, blocks: seq<seq<byte>>) {
    var start := HeaderSize(writer.kind, NumBlocks(writer.uncompressedSize));
    || (single && StoredInline(blocks))
    || (start <= writer.dest.seekLimit && start + |Flatten(blocks)| <= writer.dest.writeLimit && |blocks| + 1 < U32_MAX)
  }

  lemma HasRoomForFewer(writer: Writer, single: bool, before: seq<seq<byte>>, blocks: seq<seq<byte>>)
    requires before <= blocks && HasRoom(writer, single, blocks)
    ensures HasRoom(writer, single, before)
  {
    assert blocks == before + blocks[|before|..];
    FlattenAppend(before, blocks[|before|..]);
  }

  /** The writer holds these blocks, inline if it may. */
  ghost predicate Holds(writer: Writer, single: bool, blocks: seq<seq<byte>>)
    reads writer, writer.dest
  {
    && writer.Valid() && writer.blocks == blocks
    && (writer.state.SingleBlock? <==> single && StoredInline(blocks))
    && (single && blocks != [] ==> blocks[0] != [])
  }

  /** Progress counts whole chunks, from the first one on. */
  ghost predicate CountsChunks(chunks: seq<Chunk>, progress: nat) {
    exists n :: 0 <= n <= |chunks| && progress == Sum(OrigSizes(chunks[..n]))
  }

  /** Why a writer does not take these blocks, short of I/O errors: more bytes than the limit,
      a block that is too long, a second one for a file of a single block, or no room. */
  ghost predicate Refuses(writer: Writer, single: bool, blocks: seq<seq<byte>>, maxCompressedSize: nat) {
    || |Flatten(blocks)| > maxCompressedSize
    || Oversized(blocks)
    || (single && |Kept(single, blocks)| > 1)
    || !HasRoom(writer, single, Kept(single, blocks))
  }

  /** Why a turn fails is a reason for all of the blocks. */
  lemma FailsAsWhole(writer: Writer, single: bool, blocks: seq<seq<byte>>, i: nat)
    requires i < |blocks|
    ensures |Flatten(blocks[..i])| + |blocks[i]| <= |Flatten(blocks)|
    ensures |blocks[i]| > U32_MAX ==> Oversized(blocks)
    ensures single && Kept(single, blocks[..i]) != [] ==> |Kept(single, blocks)| > 1
    ensures !HasRoom(writer, single, Kept(single, blocks[..i]) + [blocks[i]]) ==>
      !HasRoom(writer, single, Kept(single, blocks))
  {
    BlocksStep(blocks, i);
    KeptSnoc(single, blocks[..i], blocks[i]);
    KeptPrefix(single, blocks, i + 1);
    if HasRoom(writer, single, Kept(single, blocks)) {
      HasRoomForFewer(writer, single, Kept(single, blocks[..i + 1]), Kept(single, blocks));
    }
  }

  /** One turn of the writing loop: a block is added unless the total exceeds the limit. */
  method AddNext(
      writer: Writer, block: seq<byte>, total: nat, maxCompressedSize: nat,
      ghost single: bool, ghost blocks: seq<seq<byte>>, ghost i: nat)
    returns (r: Result<nat>)
    requires i < |blocks| && block == blocks[i] && total == |Flatten(blocks[..i])|
    requires Holds(writer, single, Kept(single, blocks[..i]))
    modifies writer, writer.dest
    ensures r.Ok? ==>
      && Holds(writer, single, Kept(single, blocks[..i + 1]))
      && r.value == |Flatten(blocks[..i + 1])| <= maxCompressedSize
    ensures r.Err? ==> !writer.dest.reliable || Refuses(writer, single, blocks, maxCompressedSize)
  {
    BlocksStep(blocks, i);
    KeptFlattens(single, blocks[..i]);
    FlattenSnoc(Kept(single, blocks[..i]), block);
    KeptSnoc(single, blocks[..i], block);
    FailsAsWhole(writer, single, blocks, i);
    if total + |block| > maxCompressedSize {
      return Err(Other);
    }
    var _ :- writer.AddBlock(block);
    return Ok(total + |block|);
  }

  /** Adds every delivered block, unless they come to more than the size limit. */
  method WriteBlocks(writer: Writer, delivery: Delivery, maxCompressedSize: nat) returns (r: Result<()>, progress: nat)
    requires writer.Valid() && writer.blocks == []
    modifies writer, writer.dest
    ensures r.Ok? ==>
      && delivery.end.Ok? && |Flatten(Blocks(delivery.chunks))| <= maxCompressedSize
      && Holds(writer, old(writer.state.SingleBlock?), Kept(old(writer.state.SingleBlock?), Blocks(delivery.chunks)))
      && progress == Sum(OrigSizes(delivery.chunks))
    ensures CountsChunks(delivery.chunks, progress)
    ensures r.Err? ==>
      || !writer.dest.reliable || delivery.end.Err?
      || Refuses(writer, old(writer.state.SingleBlock?), Blocks(delivery.chunks), maxCompressedSize)
  {
    var chunks := delivery.chunks;
    ghost var blocks := Blocks(chunks);
    ghost var single := writer.state.SingleBlock?;
    var totalCompressedSize: nat := 0;
    progress := 0;
    for i := 0 to |chunks|
      invariant Holds(writer, single, Kept(single, blocks[..i]))
      invariant totalCompressedSize == |Flatten(blocks[..i])| <= maxCompressedSize
      invariant progress == Sum(OrigSizes(chunks[..i]))
    {
      OrigSizesStep(chunks, i);
      var added := AddNext(writer, chunks[i].block, totalCompressedSize, maxCompressedSize, single, blocks, i);
      if added.Err? {
        return Err(added.error), progress;
      }
      totalCompressedSize, progress := added.value, progress + chunks[i].origSize;
    }
    assert chunks[..|chunks|] == chunks && blocks[..|chunks|] == blocks;
    return delivery.end, progress;
  }

  /** Whether a complete set of blocks can be stored, short of I/O errors. */
  predicate Storable(kind: Kind, blocks: seq<seq<byte>>, maxCompressedSize: nat, writeLimit: nat) {
    |Flatten(blocks)| <= maxCompressedSize && (StoredInline(blocks) || Fits(kind, Sizes(blocks), writeLimit))
  }

  /** As many blocks as the file has; an empty file may be given one, which is kept inline. */
  predicate RightCount(uncompressedSize: nat, blocks: seq<seq<byte>>) {
    |blocks| == NumBlocks(uncompressedSize) || (uncompressedSize == 0 && |blocks| == 1 && StoredInline(blocks))
  }

  /** The one wrong count that is let through, without debug assertions only: nothing for a
      file of a single block. */
  predicate LosesBlock(uncompressedSize: nat, blocks: seq<seq<byte>>, assertions: bool) {
    !assertions && NumBlocks(uncompressedSize) == 1 && blocks == []
  }

  predicate Counted(uncompressedSize: nat, blocks: seq<seq<byte>>, assertions: bool) {
    RightCount(uncompressedSize, blocks) || LosesBlock(uncompressedSize, blocks, assertions)
  }

  /** The blocks kept of a delivery for a file of this size. */
  function KeptOf(uncompressedSize: nat, delivery: Delivery): (kept: seq<seq<byte>>)
    ensures |kept| <= |delivery.chunks|
  {
    Kept(NumBlocks(uncompressedSize) <= 1, Blocks(delivery.chunks))
  }

  lemma NoBlockOversized(blocks: seq<seq<byte>>)
    requires |Flatten(blocks)| <= U32_MAX
    ensures !Oversized(blocks)
  {
    if block :| block in blocks && |block| > U32_MAX {
      var i: nat :| i < |blocks| && blocks[i] == block;
      BlocksStep(blocks, i);
    }
  }

  /** A complete set of blocks that can be stored is not refused. */
  lemma StorableIsTaken(writer: Writer, blocks: seq<seq<byte>>, maxCompressedSize: nat)
    requires var kept := Kept(NumBlocks(writer.uncompressedSize) <= 1, blocks);
      && |kept| == NumBlocks(writer.uncompressedSize)
      && Storable(writer.kind, kept, maxCompressedSize, writer.dest.writeLimit)
    ensures !Refuses(writer, NumBlocks(writer.uncompressedSize) <= 1, blocks, maxCompressedSize)
  {
    var single := NumBlocks(writer.uncompressedSize) <= 1;
    KeptFlattens(single, blocks);
    FlattenLength(Kept(single, blocks));
    NoBlockOversized(blocks);
  }

  lemma StorableHeader(kind: Kind, blocks: seq<seq<byte>>, maxCompressedSize: nat, writeLimit: nat)
    requires Storable(kind, blocks, maxCompressedSize, writeLimit)
    ensures HeaderSize(kind, |blocks|) <= U32_MAX
  {
  }

  /** Completes a file whose blocks are in the attribute exactly when they may be. */
  method Complete(writer: Writer) returns (r: Result<seq<byte>>)
    requires Holds(writer, NumBlocks(writer.uncompressedSize) <= 1, writer.blocks)
    modifies writer.dest
    ensures r.Ok? ==>
      && Counted(writer.uncompressedSize, writer.blocks, writer.assertions)
      && (StoredInline(writer.blocks) || Fits(writer.kind, Sizes(writer.blocks), writer.dest.writeLimit))
      && Stored(writer.kind, writer.uncompressedSize, writer.blocks, r.value, writer.dest.data)
    ensures writer.dest.reliable && |writer.blocks| == NumBlocks(writer.uncompressedSize) && r.Err? ==>
      !StoredInline(writer.blocks) && !Fits(writer.kind, Sizes(writer.blocks), writer.dest.writeLimit)
  {
    r := writer.FinishDecmpfsData();
  }

  /** Creates the writer and drains the queue into it. */
  method WriteNew(
      kind: Kind, uncompressedSize: nat, dest: SeekableStore.Store, delivery: Delivery, maxCompressedSize: nat,
      assertions: bool)
    returns (r: Result<Writer>)
    requires dest.data == [] && dest.pos == 0
    modifies dest
    ensures r.Ok? ==>
      && delivery.end.Ok? && |Flatten(Blocks(delivery.chunks))| <= maxCompressedSize
      && fresh(r.value) && r.value.dest == dest
      && r.value.kind == kind && r.value.uncompressedSize == uncompressedSize && r.value.assertions == assertions
      && Holds(r.value, NumBlocks(uncompressedSize) <= 1, KeptOf(uncompressedSize, delivery))
    ensures dest.reliable && delivery.end.Ok? && |KeptOf(uncompressedSize, delivery)| == NumBlocks(uncompressedSize)
            && r.Err? ==>
      !Storable(kind, KeptOf(uncompressedSize, delivery), maxCompressedSize, dest.writeLimit)
  {
    ghost var kept := KeptOf(uncompressedSize, delivery);
    ghost var takes :=
      |kept| == NumBlocks(uncompressedSize) && Storable(kind, kept, maxCompressedSize, dest.writeLimit);
    if takes {
      StorableHeader(kind, kept, maxCompressedSize, dest.writeLimit);
    }
    var writer :- Writer.Create(kind, uncompressedSize, dest, assertions);
    if takes {
      StorableIsTaken(writer, Blocks(delivery.chunks), maxCompressedSize);
    }
    var written, _ := WriteBlocks(writer, delivery, maxCompressedSize);
    return if written.Err? then Err(written.error) else Ok(writer);
  }

  /** Creates the writer, drains the queue into it and completes the file, unless the number
      of blocks kept is wrong: a delivery with items missing is not completed even if it ends
      in Ok. Only for a file of a single block that is left to a debug assertion. */
  method WriteCompressedBlocks(
      kind: Kind, uncompressedSize: nat, dest: SeekableStore.Store, delivery: Delivery, maxCompressedSize: nat,
      assertions: bool)
    returns (r: Result<seq<byte>>)
    requires dest.data == [] && dest.pos == 0
    modifies dest
    ensures r.Ok? ==>
      var kept := KeptOf(uncompressedSize, delivery);
      && delivery.end.Ok?
      && Counted(uncompressedSize, kept, assertions)
      && Storable(kind, kept, maxCompressedSize, dest.writeLimit)
      && Stored(kind, uncompressedSize, kept, r.value, dest.data)
    ensures |delivery.chunks| < NumBlocks(uncompressedSize) && r.Ok? ==>
      && !assertions && NumBlocks(uncompressedSize) == 1
      && r.value == InlineAttribute(kind, uncompressedSize, []) && dest.data == []
    ensures dest.reliable && delivery.end.Ok? && |KeptOf(uncompressedSize, delivery)| == NumBlocks(uncompressedSize)
            && r.Err? ==>
      !Storable(kind, KeptOf(uncompressedSize, delivery), maxCompressedSize, dest.writeLimit)
  {
    KeptFlattens(NumBlocks(uncompressedSize) <= 1, Blocks(delivery.chunks));
    var writer :- WriteNew(kind, uncompressedSize, dest, delivery, maxCompressedSize, assertions);
    r := Complete(writer);
  }

  /** What is left of a file whose only block went missing that way holds no block at all, and
      verification notices. */
  lemma LostBlockIsEmpty(kind: Kind, codec: Codec, uncompressedSize: nat, fork: seq<byte>, room: nat)
    requires 0 < uncompressedSize < U64_LIMIT
    ensures Contents(InlineAttribute(kind, uncompressedSize, []), fork) == Ok((kind, []))
    ensures DecodedFile(kind, codec, [], room) == Ok([])
  {
    InlineRoundTrip(kind, uncompressedSize, [], fork);
  }

  /** Whole blocks and a part of the next are a prefix of everything. */
  lemma PrefixWritten(before: seq<byte>, blocks: seq<seq<byte>>, i: nat, accepted: nat)
    requires i < |blocks| && accepted <= |blocks[i]|
    ensures before + Flatten(blocks[..i]) + blocks[i][..accepted] <= before + Flatten(blocks)
  {
    assert blocks == blocks[..i] + blocks[i..] && blocks[i..][0] == blocks[i];
    FlattenAppend(blocks[..i], blocks[i..]);
    assert blocks[i][..accepted] + blocks[i][accepted..] == blocks[i];
  }

  /** Writes decompressed chunks. The destination never receives more than the expected
      length, even when the decoded data is malformed; Ok means exactly that length. */
  method WriteUncompressedBlocks(expectedLen: nat, destination: Sink, delivery: Delivery) returns (r: Result<()>)
    modifies destination
    ensures |destination.received| <= |old(destination.received)| + expectedLen
    ensures old(destination.received) <= destination.received
    ensures destination.received <= old(destination.received) + Flatten(Blocks(delivery.chunks))
    ensures r.Ok? ==> destination.received == old(destination.received) + Flatten(Blocks(delivery.chunks))
    ensures r.Ok? ==> delivery.end.Ok? && |Flatten(Blocks(delivery.chunks))| == expectedLen
    ensures r.Err? && delivery.end.Ok? && |Flatten(Blocks(delivery.chunks))| == expectedLen ==>
      !old(destination.Calm()) || !old(destination.Room(expectedLen))
  {
    var chunks := delivery.chunks;
    ghost var blocks := Blocks(chunks);
    var remaining: nat := expectedLen;
    for i := 0 to |chunks|
      invariant remaining + |Flatten(blocks[..i])| == expectedLen
      invariant old(destination.received) + Flatten(blocks[..i]) <= old(destination.received) + Flatten(blocks)
      invariant destination.received == old(destination.received) + Flatten(blocks[..i])
      invariant old(destination.Calm()) ==> destination.Calm()
      invariant old(destination.Room(expectedLen)) ==> destination.Room(remaining)
    {
      BlocksStep(blocks, i);
      FlattenSnoc(blocks[..i], blocks[i]);
      var block := chunks[i].block;
      if |block| > remaining {
        return Err(Other);
      }
      remaining := remaining - |block|;
      var written, accepted := WriteChunk(destination, block);
      PrefixWritten(old(destination.received), blocks, i, accepted);
      if written.Err? {
        return Err(written.error);
      }
    }
    assert blocks[..|chunks|] == blocks;
    var _ :- delivery.end;
    if remaining != 0 {
      return Err(Other);
    }
    r := destination.Flush();
  }

  // ----- verification against the compressed original

  /** The whole file a sequence of compressed blocks stands for. */
  function DecodedFile(kind: Kind, codec: Codec, blocks: seq<seq<byte>>, room: nat): Result<seq<byte>> {
    if blocks == [] then Ok([])
    else match Decompressed(kind, codec, blocks[0], room)
      case Err(e) => Err(e)
      case Ok(data) =>
        match DecodedFile(kind, codec, blocks[1..], room)
        case Err(e) => Err(e)
        case Ok(rest) => Ok(data + rest)
  }

  /** What is left to read of the destination, and after how many bytes reading it fails,
      if it does. */
  datatype Unread = Unread(rest: seq<byte>, faultAfter: Option<nat>)

  /** Reads exactly `n` bytes. */
  function ReadExactly(d: Unread, n: nat): (r: Result<(seq<byte>, Unread)>)
    ensures r.Ok? ==> d.rest == r.value.0 + r.value.1.rest && |r.value.0| == n
    ensures d.faultAfter.None? ==> (r.Ok? <==> n <= |d.rest|) && (r.Ok? ==> r.value.1.faultAfter.None?)
  {
    if d.faultAfter.Some? && d.faultAfter.value < n then Err(Other)
    else if |d.rest| < n then Err(UnexpectedEof)
    else Ok((d.rest[..n], Unread(d.rest[n..], if d.faultAfter.None? then None else Some(d.faultAfter.value - n))))
  }

  /** Decodes one block and compares it with the next bytes of the destination. */
  function CompareBlock(kind: Kind, codec: Codec, d: Unread, block: seq<byte>): Result<Unread> {
    match Decompressed(kind, codec, block, BLOCK_SIZE + 1)
    case Err(e) => Err(e)
    case Ok(data) =>
      match ReadExactly(d, |data|)
      case Err(e) => Err(e)
      case Ok((actual, d')) => if actual != data then Err(Other) else Ok(d')
  }

  /** Comparing block by block, with nothing left over, is comparing the whole file. */
  lemma {:induction false} ComparesWhole(
      kind: Kind, codec: Codec, f: (Unread, seq<byte>) -> Result<Unread>, d: Unread, blocks: seq<seq<byte>>)
    requires forall d: Unread, block: seq<byte> :: f(d, block) == CompareBlock(kind, codec, d, block)
    ensures var compared, decoded := FoldBlocks(f, d, blocks), DecodedFile(kind, codec, blocks, BLOCK_SIZE + 1);
      && (compared.Ok? && compared.value.rest == [] ==> decoded == Ok(d.rest))
      && (d.faultAfter.None? && decoded == Ok(d.rest) ==> compared == Ok(Unread([], None)))
    decreases |blocks|
  {
    if blocks == [] {
    } else {
      var data := Decompressed(kind, codec, blocks[0], BLOCK_SIZE + 1);
      if data.Ok? && ReadExactly(d, |data.value|).Ok? {
        ComparesWhole(kind, codec, f, ReadExactly(d, |data.value|).value.1, blocks[1..]);
      }
    }
  }

  /** Ok only when every block of the original decodes and the decoded blocks together are
      the destination; and always then, without I/O errors on either side. */
  method VerifyManually(attribute: seq<byte>, original: SeekableStore.Store, codecs: Kind -> Codec, destination: Unread)
    returns (r: Result<()>)
    modifies original`pos
    ensures r.Ok? ==>
      && Contents(attribute, original.data).Ok?
      && var (kind, blocks) := Contents(attribute, original.data).value;
      DecodedFile(kind, codecs(kind), blocks, BLOCK_SIZE + 1) == Ok(destination.rest)
    ensures original.reliable && destination.faultAfter.None? && Contents(attribute, original.data).Ok? && r.Err? ==>
      var (kind, blocks) := Contents(attribute, original.data).value;
      DecodedFile(kind, codecs(kind), blocks, BLOCK_SIZE + 1) != Ok(destination.rest)
  {
    var compare := (kind: Kind) => (d: Unread, block: seq<byte>) => CompareBlock(kind, codecs(kind), d, block);
    var folded := WithCompressedBlocks(attribute, original, compare, destination);
    ghost var contents := Contents(attribute, original.data);
    if contents.Ok? {
      var (kind, blocks) := contents.value;
      ComparesWhole(kind, codecs(kind), compare(kind), destination, blocks);
    }
    var left :- folded;
    if left.faultAfter == Some(0) || left.rest != [] {
      return Err(Other);
    }
    return Ok(());
  }
}
