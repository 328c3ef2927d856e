/** The decmpfs reader: parses the attribute and the fork's table, then fetches blocks by
    seeking relative to where the previous one ended. */
module CompressedReader {
  import opened Bytes
  import opened Wrappers
  import opened Decmpfs
  import opened SeekableStore
  import opened Format

  datatype ReaderState =
    | Inline(data: seq<byte>, position: nat)
    // Block positions are kept last first, so the next one is popped off the end.
    | Fork(blockInfos: seq<BlockInfo>, lastOffset: nat)

  function Reversed<T>(s: seq<T>): (r: seq<T>)
    ensures |r| == |s|
    ensures forall i :: 0 <= i < |s| ==> r[i] == s[|s| - 1 - i]
  {
    seq(|s|, i requires 0 <= i < |s| => s[|s| - 1 - i])
  }

  /** Whether the block a table entry describes is there to be read. */
  predicate Readable(fork: seq<byte>, info: BlockInfo) {
    && |Window(fork, info.offset, info.compressedSize)| == info.compressedSize
    && info.offset + info.compressedSize <= U32_MAX
  }

  class Reader {
    const kind: Kind
    const fork: Store
    var state: ReaderState

    ghost predicate Valid()
      reads this, fork
    {
      match state
      case Inline(data, position) => position <= |data|
      case Fork(infos, lastOffset) =>
        && fork.pos == lastOffset
        && forall info <- infos :: info.offset <= U32_MAX
    }

    constructor (kind: Kind, fork: Store, state: ReaderState)
      ensures this.kind == kind && this.fork == fork && this.state == state
    {
      this.kind, this.fork, this.state := kind, fork, state;
    }

    static method Open(attribute: seq<byte>, fork: Store) returns (r: Result<Reader>)
      modifies fork`pos
      ensures r.Ok? ==> fresh(r.value) && r.value.Valid() && r.value.fork == fork
      ensures r.Ok? ==> Described(attribute).Ok? && r.value.kind == Described(attribute).value.0
      ensures r.Ok? ==>
        var (kind, storage, value) := Described(attribute).value;
        match storage
        case Xattr => r.value.state == Inline(value.extraData, 0)
        case ResourceFork =>
          && WellFormed(kind, fork.data, NumBlocks(value.uncompressedSize))
          && r.value.state == Fork(Reversed(Infos(kind, fork.data, NumBlocks(value.uncompressedSize))), 0)
      ensures fork.reliable && Described(attribute).Ok? && r.Err? ==>
        var (kind, storage, value) := Described(attribute).value;
        storage.ResourceFork? && !WellFormed(kind, fork.data, NumBlocks(value.uncompressedSize))
    {
      var described :- Described(attribute);
      var (kind, storage, value) := described;
      if storage.Xattr? {
        var reader := new Reader(kind, fork, Inline(value.extraData, 0));
        return Ok(reader);
      }
      var infos :- Format.ReadBlockInfo(kind, fork, value.uncompressedSize);
      InfosInRange(kind, fork.data, NumBlocks(value.uncompressedSize));
      var _ :- fork.SeekStart(0);
      var reader := new Reader(kind, fork, Fork(Reversed(infos), 0));
      return Ok(reader);
    }

    function RemainingBlocks(): nat
      reads this
    {
      match state
      case Inline(data, position) => if position < |data| then 1 else 0
      case Fork(infos, _) => |infos|
    }

    /** Appends the next block to `dst`. Relative seeking amounts to reading each block at
        its absolute offset: the position is the end of the previous block. */
    method ReadBlockInto(dst: seq<byte>) returns (r: Result<bool>, dst': seq<byte>)
      requires Valid()
      modifies this, fork`pos
      ensures r.Ok? ==> Valid() && r.value == (old(RemainingBlocks()) > 0)
      ensures r.Ok? && r.value ==> RemainingBlocks() == old(RemainingBlocks()) - 1
      ensures old(state.Inline?) && r.Ok? ==>
        dst' == dst + old(state).data[old(state).position..] && state == Inline(old(state).data, |old(state).data|)
      ensures old(state.Inline?) ==> r.Ok?
      ensures old(state.Fork?) && old(state).blockInfos == [] ==>
        r == Ok(false) && dst' == dst && unchanged(this) && unchanged(fork)
      ensures old(state.Fork?) && old(state).blockInfos != [] ==>
        var infos := old(state).blockInfos;
        var next := infos[|infos| - 1];
        && state.Fork? && state.blockInfos == infos[..|infos| - 1]
        && dst <= dst' <= dst + Window(fork.data, next.offset, next.compressedSize)
        && (r.Ok? ==> Readable(fork.data, next) && dst' == dst + Window(fork.data, next.offset, next.compressedSize))
        && (r.Ok? ==> fork.pos == next.offset + next.compressedSize)
        && (fork.reliable && Readable(fork.data, next) ==> r.Ok?)
    {
      match state
      case Inline(data, position) =>
        dst' := dst + data[position..];
        state := Inline(data, |data|);
        return Ok(position < |data|), dst';
      case Fork(infos, lastOffset) =>
        dst' := dst;
        if infos == [] {
          return Ok(false), dst;
        }
        var block := infos[|infos| - 1];
        state := Fork(infos[..|infos| - 1], lastOffset);
        var sought := fork.SeekRelative(block.offset - lastOffset);
        if sought.Err? {
          return Err(sought.error), dst;
        }
        var read, got := fork.ReadToEnd(block.compressedSize);
        dst' := dst + got;
        if read.Err? {
          return Err(read.error), dst';
        }
        if |got| < block.compressedSize {
          return Err(UnexpectedEof), dst';
        }
        if block.offset + block.compressedSize > U32_MAX {
          return Err(InvalidData), dst';
        }
        state := Fork(infos[..|infos| - 1], block.offset + block.compressedSize);
        return Ok(true), dst';
    }
  }

  /** Table entries are 32-bit fields whose offsets the parsers keep in range. */
  lemma InfosInRange(kind: Kind, data: seq<byte>, blockCount: nat)
    requires WellFormed(kind, data, blockCount)
    ensures forall info <- Infos(kind, data, blockCount) :: info.offset <= U32_MAX
  {
  }

  // ----- whole files

  /** The blocks a compressed file holds, in order: what a reader that meets no I/O error
      delivers, or why it cannot deliver all of them. */
  function Contents(attribute: seq<byte>, fork: seq<byte>): Result<(Kind, seq<seq<byte>>)> {
    match Described(attribute)
    case Err(e) => Err(e)
    case Ok((kind, storage, value)) =>
      if storage.Xattr? then Ok((kind, if value.extraData == [] then [] else [value.extraData]))
      else
        var blockCount := NumBlocks(value.uncompressedSize);
        if !WellFormed(kind, fork, blockCount) then Err(InvalidData)
        else
          var infos := Infos(kind, fork, blockCount);
          if !(forall info <- infos :: Readable(fork, info)) then Err(UnexpectedEof)
          else Ok((kind, Windows(fork, infos)))
  }

  function Windows(fork: seq<byte>, infos: seq<BlockInfo>): (blocks: seq<seq<byte>>)
    ensures |blocks| == |infos|
  {
    if infos == [] then []
    else [Window(fork, infos[0].offset, infos[0].compressedSize)] + Windows(fork, infos[1..])
  }

  lemma {:induction false} WindowsAt(fork: seq<byte>, infos: seq<BlockInfo>, i: nat)
    requires i < |infos|
    ensures Windows(fork, infos)[i] == Window(fork, infos[i].offset, infos[i].compressedSize)
  {
    if i == 0 {
    } else {
      WindowsAt(fork, infos[1..], i - 1);
    }
  }

  lemma ReadableIs(fork: seq<byte>, info: BlockInfo)
    requires |fork| <= U32_MAX
    ensures Readable(fork, info) <==>
      info.offset + info.compressedSize <= if info.compressedSize == 0 then U32_MAX else |fork|
  {
  }

  lemma AllReadable(fork: seq<byte>, infos: seq<BlockInfo>)
    requires |fork| <= U32_MAX
    ensures (forall info <- infos :: Readable(fork, info)) <==>
      (forall i :: 0 <= i < |infos| ==>
        infos[i].offset + infos[i].compressedSize <= if infos[i].compressedSize == 0 then U32_MAX else |fork|)
  {
    forall i | 0 <= i < |infos|
      ensures infos[i] in infos
      ensures Readable(fork, infos[i]) <==>
        infos[i].offset + infos[i].compressedSize <= if infos[i].compressedSize == 0 then U32_MAX else |fork|
    {
      ReadableIs(fork, infos[i]);
    }
  }

  /** Which well-formed files with a fork can be read, and what is read of them: exactly those
      whose table stays within the fork, and each block is the bytes its entry says. */
  lemma BlocksLieInFork(attribute: seq<byte>, fork: seq<byte>, i: nat)
    requires Described(attribute).Ok? && Described(attribute).value.1.ResourceFork?
    requires var (kind, _, value) := Described(attribute).value;
      WellFormed(kind, fork, NumBlocks(value.uncompressedSize))
    ensures var (kind, _, value) := Described(attribute).value;
      var infos := Infos(kind, fork, NumBlocks(value.uncompressedSize));
      && (Contents(attribute, fork).Ok? <==>
          forall j :: 0 <= j < |infos| ==>
            infos[j].offset + infos[j].compressedSize <= if infos[j].compressedSize == 0 then U32_MAX else |fork|)
      && (Contents(attribute, fork).Ok? ==>
          var blocks := Contents(attribute, fork).value.1;
          && |blocks| == |infos|
          && (i < |blocks| && blocks[i] != [] ==>
              infos[i].offset + infos[i].compressedSize <= |fork|
              && blocks[i] == fork[infos[i].offset..infos[i].offset + infos[i].compressedSize]))
  {
    var (kind, _, value) := Described(attribute).value;
    var infos := Infos(kind, fork, NumBlocks(value.uncompressedSize));
    AllReadable(fork, infos);
    if i < |infos| {
      WindowsAt(fork, infos, i);
    }
  }

  /** A table entry and the block it locates. */
  predicate Locates(fork: seq<byte>, info: BlockInfo, block: seq<byte>) {
    Readable(fork, info) && Window(fork, info.offset, info.compressedSize) == block
  }

  lemma WindowLocates(fork: seq<byte>, info: BlockInfo, block: seq<byte>)
    requires Window(fork, info.offset, info.compressedSize) == block && |block| == info.compressedSize
    requires info.offset + info.compressedSize <= U32_MAX
    ensures Locates(fork, info, block)
  {
  }

  lemma PieceReadsBack(kind: Kind, sizes: seq<nat>, body: seq<byte>, offset: nat, block: seq<byte>)
    requires offset + |block| <= |body| && body[offset..offset + |block|] == block
    requires HeaderSize(kind, |sizes|) + |body| <= U32_MAX
    ensures Locates(Layout(kind, sizes, body), BlockInfo(HeaderSize(kind, |sizes|) + offset, |block|), block)
  {
    LayoutData(kind, sizes, body, offset, |block|);
    WindowLocates(Layout(kind, sizes, body), BlockInfo(HeaderSize(kind, |sizes|) + offset, |block|), block);
  }

  lemma BlockReadsBack(kind: Kind, sizes: seq<nat>, body: seq<byte>, i: nat, block: seq<byte>)
    requires i < |sizes| && HeaderSize(kind, |sizes|) + |body| <= U32_MAX
    requires |block| == sizes[i] && Sum(sizes[..i]) + |block| <= |body|
    requires body[Sum(sizes[..i])..Sum(sizes[..i]) + |block|] == block
    ensures Locates(Layout(kind, sizes, body), BlockPositions(HeaderSize(kind, |sizes|), sizes)[i], block)
  {
    PieceReadsBack(kind, sizes, body, Sum(sizes[..i]), block);
  }

  lemma BlockOfManyReadsBack(kind: Kind, blocks: seq<seq<byte>>, sizes: seq<nat>, body: seq<byte>, i: nat)
    requires i < |blocks| && sizes == Sizes(blocks) && body == Flatten(blocks)
    requires HeaderSize(kind, |sizes|) + |body| <= U32_MAX
    ensures Locates(Layout(kind, sizes, body), BlockPositions(HeaderSize(kind, |sizes|), sizes)[i], blocks[i])
  {
    FlattenAt(blocks, i);
    BlockReadsBack(kind, sizes, body, i, blocks[i]);
  }

  lemma BlocksReadBack(kind: Kind, blocks: seq<seq<byte>>, sizes: seq<nat>, fork: seq<byte>, infos: seq<BlockInfo>)
    requires sizes == Sizes(blocks) && ForkSize(kind, sizes) <= U32_MAX
    requires fork == Layout(kind, sizes, Flatten(blocks)) && infos == BlockPositions(HeaderSize(kind, |sizes|), sizes)
    ensures forall i :: 0 <= i < |blocks| ==> Locates(fork, infos[i], blocks[i])
  {
    FlattenLength(blocks);
    forall i: nat | i < |blocks| ensures Locates(fork, infos[i], blocks[i]) {
      BlockOfManyReadsBack(kind, blocks, sizes, Flatten(blocks), i);
    }
  }

  /** What the writer leaves for a file with a resource fork holds exactly its blocks. */
  lemma ForkRoundTrip(kind: Kind, size: nat, blocks: seq<seq<byte>>)
    requires size < U64_LIMIT && |blocks| == NumBlocks(size)
    requires ForkSize(kind, Sizes(blocks)) <= U32_MAX
    ensures var attribute := ToBytes(Value(RawType(kind, ResourceFork), size, []));
      Contents(attribute, Layout(kind, Sizes(blocks), Flatten(blocks))) == Ok((kind, blocks))
  {
    var sizes := Sizes(blocks);
    FlattenLength(blocks);
    LayoutParses(kind, sizes, Flatten(blocks));
    var fork, infos := Layout(kind, sizes, Flatten(blocks)), BlockPositions(HeaderSize(kind, |sizes|), sizes);
    BlocksReadBack(kind, blocks, sizes, fork, infos);
    ForkContents(kind, size, fork, infos, blocks);
  }

  lemma ForkContents(kind: Kind, size: nat, fork: seq<byte>, infos: seq<BlockInfo>, blocks: seq<seq<byte>>)
    requires size < U64_LIMIT && |infos| == |blocks| == NumBlocks(size)
    requires WellFormed(kind, fork, |blocks|) && Infos(kind, fork, |blocks|) == infos
    requires forall i :: 0 <= i < |blocks| ==> Locates(fork, infos[i], blocks[i])
    ensures Contents(ToBytes(Value(RawType(kind, ResourceFork), size, [])), fork) == Ok((kind, blocks))
  {
    ValueRoundTrip(Value(RawType(kind, ResourceFork), size, []));
    WindowsAre(fork, infos, blocks);
  }

  lemma WindowsAre(fork: seq<byte>, infos: seq<BlockInfo>, blocks: seq<seq<byte>>)
    requires |infos| == |blocks|
    requires forall i :: 0 <= i < |blocks| ==> Locates(fork, infos[i], blocks[i])
    ensures Windows(fork, infos) == blocks
  {
    forall i | 0 <= i < |blocks|
      ensures Windows(fork, infos)[i] == blocks[i]
    {
      WindowsAt(fork, infos, i);
    }
  }

  /** What the writer leaves for a small file holds exactly its block, if it has one. */
  lemma InlineRoundTrip(kind: Kind, size: nat, block: seq<byte>, fork: seq<byte>)
    requires size < U64_LIMIT
    ensures Contents(ToBytes(Value(RawType(kind, Xattr), size, block)), fork) ==
      Ok((kind, if block == [] then [] else [block]))
  {
    ValueRoundTrip(Value(RawType(kind, Xattr), size, block));
  }

  // ----- the reading loop

  /** The blocks a reader has yet to deliver, if all of them are there. */
  ghost function Outstanding(state: ReaderState, fork: seq<byte>): Result<seq<seq<byte>>> {
    match state
    case Inline(data, position) => Ok(if position < |data| then [data[position..]] else [])
    case Fork(infos, _) =>
      if forall info <- infos :: Readable(fork, info) then Ok(Windows(fork, Reversed(infos))) else Err(UnexpectedEof)
  }

  /** Popping a readable entry takes its block off the front of what is outstanding. */
  lemma PopOutstanding(infos: seq<BlockInfo>, lastOffset: nat, lastOffset': nat, fork: seq<byte>)
    requires infos != [] && Readable(fork, infos[|infos| - 1])
    ensures
      var next, before := infos[|infos| - 1], Outstanding(Fork(infos, lastOffset), fork);
      var after := Outstanding(Fork(infos[..|infos| - 1], lastOffset'), fork);
      && (before.Ok? <==> after.Ok?)
      && (before.Ok? ==> before.value == [Window(fork, next.offset, next.compressedSize)] + after.value)
  {
    assert infos == infos[..|infos| - 1] + [infos[|infos| - 1]];
    assert Reversed(infos)[1..] == Reversed(infos[..|infos| - 1]);
  }

  /** An entry that cannot be read is among the outstanding ones until it is reached. */
  lemma UnreadableOutstanding(infos: seq<BlockInfo>, lastOffset: nat, fork: seq<byte>)
    requires infos != [] && !Readable(fork, infos[|infos| - 1])
    ensures Outstanding(Fork(infos, lastOffset), fork).Err?
  {
    assert infos[|infos| - 1] in infos;
  }

  lemma FreshlyOpened(infos: seq<BlockInfo>, fork: seq<byte>)
    ensures Outstanding(Fork(Reversed(infos), 0), fork).Ok? <==> forall info <- infos :: Readable(fork, info)
    ensures Outstanding(Fork(Reversed(infos), 0), fork).Ok? ==>
      Outstanding(Fork(Reversed(infos), 0), fork).value == Windows(fork, infos)
  {
    assert Reversed(Reversed(infos)) == infos;
    assert forall info :: info in infos <==> info in Reversed(infos) by {
      assert forall i :: 0 <= i < |infos| ==> infos[i] == Reversed(infos)[|infos| - 1 - i];
    }
  }

  /** Feeding blocks to a callback until it fails. */
  function FoldBlocks<S>(f: (S, seq<byte>) -> Result<S>, s: S, blocks: seq<seq<byte>>): Result<S> {
    if blocks == [] then Ok(s)
    else match f(s, blocks[0])
      case Err(e) => Err(e)
      case Ok(s') => FoldBlocks(f, s', blocks[1..])
  }

  /** The next block, if there is one. */
  method NextBlock(reader: Reader) returns (r: Result<Option<seq<byte>>>)
    requires reader.Valid()
    modifies reader, reader.fork`pos
    ensures r.Ok? ==> reader.Valid()
    ensures var before, after :=
      old(Outstanding(reader.state, reader.fork.data)), Outstanding(reader.state, reader.fork.data);
      && (r.Ok? ==> (before.Ok? <==> after.Ok?))
      && (r.Ok? && r.value.Some? && before.Ok? ==> before.value == [r.value.value] + after.value)
      && (r.Ok? && r.value.Some? ==> reader.RemainingBlocks() < old(reader.RemainingBlocks()))
      && (r.Ok? && r.value.None? ==> before == Ok([]))
      && (reader.fork.reliable && before.Ok? ==> r.Ok?)
  {
    ghost var before := reader.state;
    var read, buf := reader.ReadBlockInto([]);
    if before.Fork? && before.blockInfos != [] {
      if Readable(reader.fork.data, before.blockInfos[|before.blockInfos| - 1]) {
        PopOutstanding(before.blockInfos, before.lastOffset, reader.state.lastOffset, reader.fork.data);
      } else {
        UnreadableOutstanding(before.blockInfos, before.lastOffset, reader.fork.data);
      }
    }
    assert forall s: seq<byte> {:trigger [] + s} :: [] + s == s;
    var hasBlock :- read;
    return Ok(if hasBlock then Some(buf) else None);
  }

  /** A reader that opened a file has all of its contents outstanding. */
  lemma OpenedContents(attribute: seq<byte>, fork: seq<byte>, state: ReaderState)
    requires Described(attribute).Ok?
    requires var (kind, storage, value) := Described(attribute).value;
      match storage
      case Xattr => state == Inline(value.extraData, 0)
      case ResourceFork =>
        && WellFormed(kind, fork, NumBlocks(value.uncompressedSize))
        && state == Fork(Reversed(Infos(kind, fork, NumBlocks(value.uncompressedSize))), 0)
    ensures Contents(attribute, fork).Ok? <==> Outstanding(state, fork).Ok?
    ensures Contents(attribute, fork).Ok? ==>
      Contents(attribute, fork).value == (Described(attribute).value.0, Outstanding(state, fork).value)
  {
    if state.Fork? {
      var (kind, _, value) := Described(attribute).value;
      FreshlyOpened(Infos(kind, fork, NumBlocks(value.uncompressedSize)), fork);
    }
  }

  /** Hands every block of a compressed file to a callback built for its kind. */
  method WithCompressedBlocks<S>(attribute: seq<byte>, fork: Store, f: Kind -> ((S, seq<byte>) -> Result<S>), init: S)
    returns (r: Result<S>)
    modifies fork`pos
    ensures r.Ok? ==>
      && Contents(attribute, fork.data).Ok?
      && var (kind, blocks) := Contents(attribute, fork.data).value;
      FoldBlocks(f(kind), init, blocks) == r
    ensures fork.reliable && Contents(attribute, fork.data).Ok? ==>
      var (kind, blocks) := Contents(attribute, fork.data).value;
      r.Ok? <==> FoldBlocks(f(kind), init, blocks).Ok?
  {
    var reader :- Reader.Open(attribute, fork);
    var perBlock := f(reader.kind);
    var s := init;
    OpenedContents(attribute, fork.data, reader.state);
    ghost var all := Contents(attribute, fork.data);
    while true
      invariant reader.Valid() && reader.fork == fork
      invariant all.Ok? <==> Outstanding(reader.state, fork.data).Ok?
      invariant all.Ok? ==>
        FoldBlocks(perBlock, init, all.value.1) == FoldBlocks(perBlock, s, Outstanding(reader.state, fork.data).value)
      decreases reader.RemainingBlocks()
    {
      var next :- NextBlock(reader);
      if next.None? {
        break;
      }
      s :- perBlock(s, next.value);
    }
    return Ok(s);
  }
}
