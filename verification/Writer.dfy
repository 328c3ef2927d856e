/** The decmpfs writer: a hole for the header, then appended blocks, then the header; or a
    single small block kept back for the extended attribute. */
module CompressedWriter {
  import opened Bytes
  import opened Wrappers
  import opened Decmpfs
  import opened SeekableStore
  import opened Format

  datatype WriterState =
    // Only between taking the old state and installing the new one, or after a failure there.
    | Empty
    // The store is not opened until the block is known to be too large for the attribute.
    | SingleBlock(block: seq<byte>)
    | MultipleBlocks(blockSizes: seq<nat>)

  /** The attribute of a file whose data is kept inline. */
  function InlineAttribute(kind: Kind, size: nat, block: seq<byte>): seq<byte> {
    ToBytes(Value(RawType(kind, Xattr), size, block))
  }

  /** The attribute of a file whose data is in the resource fork. */
  function ForkAttribute(kind: Kind, size: nat): seq<byte> {
    ToBytes(Value(RawType(kind, ResourceFork), size, []))
  }

  /** What either attribute says: the file's kind, where its data is, and its true length. */
  lemma AttributeSays(kind: Kind, storage: Storage, size: nat, data: seq<byte>)
    requires size < U64_LIMIT
    ensures Described(ToBytes(Value(RawType(kind, storage), size, data))) ==
      Ok((kind, storage, Value(RawType(kind, storage), size, data)))
  {
    ValueRoundTrip(Value(RawType(kind, storage), size, data));
  }

  lemma AppendBlock(start: nat, blocks: seq<seq<byte>>, block: seq<byte>)
    ensures Overwrite(Overwrite([], start, Flatten(blocks)), start + |Flatten(blocks)|, block)
            == Overwrite([], start, Flatten(blocks + [block]))
    ensures |Flatten(blocks + [block])| == |Flatten(blocks)| + |block|
    ensures Sizes(blocks + [block]) == Sizes(blocks) + [|block|]
  {
    OverwriteAppend([], start, Flatten(blocks), block);
    FlattenSnoc(blocks, block);
  }

  /** Whether blocks of a file are kept in the attribute rather than in the fork. */
  predicate StoredInline(blocks: seq<seq<byte>>) {
    blocks == [] || (|blocks| == 1 && |blocks[0]| <= MAX_XATTR_DATA_SIZE)
  }

  /** The finished form of a file holding `blocks`. */
  predicate Stored(kind: Kind, size: nat, blocks: seq<seq<byte>>, attribute: seq<byte>, fork: seq<byte>) {
    if StoredInline(blocks) then attribute == InlineAttribute(kind, size, Flatten(blocks)) && fork == []
    else attribute == ForkAttribute(kind, size) && fork == Layout(kind, Sizes(blocks), Flatten(blocks))
  }

  /** A finished file says of itself what it is: its kind, its length before compression, and
      whether its data is in the attribute, with all of it, or in the fork. */
  lemma StoredSays(kind: Kind, size: nat, blocks: seq<seq<byte>>, attribute: seq<byte>, fork: seq<byte>)
    requires size < U64_LIMIT && Stored(kind, size, blocks, attribute, fork)
    ensures FromData(attribute).Ok? && FromData(attribute).value.uncompressedSize == size
    ensures Described(attribute).Ok?
    ensures var (kind', storage, value) := Described(attribute).value;
      && kind' == kind && value.uncompressedSize == size
      && (storage.Xattr? <==> fork == [])
      && value.extraData == if fork == [] then Flatten(blocks) else []
  {
    AttributeSays(kind, Xattr, size, Flatten(blocks));
    AttributeSays(kind, ResourceFork, size, []);
  }

  /** One block goes into the attribute exactly if that stays within its 3802 bytes. */
  lemma InlineWithinMaximum(kind: Kind, size: nat, block: seq<byte>, attribute: seq<byte>, fork: seq<byte>)
    requires Stored(kind, size, [block], attribute, fork)
    ensures fork == [] <==> 16 + |block| <= 3802
    ensures |attribute| == 16 + if fork == [] then |block| else 0
  {
    FlattenLength([block]);
    assert Sizes([block]) == [|block|];
  }

  class Writer {
    const kind: Kind
    const uncompressedSize: nat
    // Whether debug assertions are compiled in.
    const assertions: bool
    // What opening the resource fork gives: an empty store at position 0.
    const dest: Store
    var state: WriterState
    // The blocks the finished file will hold.
    ghost var blocks: seq<seq<byte>>

    ghost predicate Valid()
      reads this, dest
    {
      match state
      case Empty => false
      case SingleBlock(block) =>
        && NumBlocks(uncompressedSize) <= 1
        && dest.data == [] && dest.pos == 0
        && |block| <= MAX_XATTR_DATA_SIZE
        && blocks == if block == [] then [] else [block]
      case MultipleBlocks(sizes) =>
        && sizes == Sizes(blocks)
        && var start := HeaderSize(kind, NumBlocks(uncompressedSize));
        && start <= dest.seekLimit
        && dest.data == Overwrite([], start, Flatten(blocks))
        && dest.pos == start + |Flatten(blocks)|
        && (Flatten(blocks) != [] ==> dest.pos <= dest.writeLimit)
    }

    constructor (kind: Kind, uncompressedSize: nat, dest: Store, assertions: bool)
      requires dest.data == [] && dest.pos == 0
      ensures this.kind == kind && this.uncompressedSize == uncompressedSize && this.dest == dest
      ensures this.assertions == assertions
      ensures state == SingleBlock([]) && blocks == []
    {
      this.kind, this.uncompressedSize, this.dest, this.assertions := kind, uncompressedSize, dest, assertions;
      state, blocks := SingleBlock([]), [];
    }

    /** Opens the store at once for more than one block. */
    static method Create(kind: Kind, uncompressedSize: nat, dest: Store, assertions: bool) returns (r: Result<Writer>)
      requires dest.data == [] && dest.pos == 0
      modifies dest
      ensures r.Ok? ==> fresh(r.value) && r.value.Valid() && r.value.blocks == []
      ensures r.Ok? ==> r.value.kind == kind && r.value.uncompressedSize == uncompressedSize && r.value.dest == dest
      ensures r.Ok? ==> r.value.assertions == assertions
      ensures r.Ok? ==> (r.value.state.SingleBlock? <==> NumBlocks(uncompressedSize) <= 1)
      ensures dest.reliable && HeaderSize(kind, NumBlocks(uncompressedSize)) <= dest.seekLimit ==> r.Ok?
    {
      var writer := new Writer(kind, uncompressedSize, dest, assertions);
      if NumBlocks(uncompressedSize) > 1 {
        var _ :- dest.SeekStart(HeaderSize(kind, NumBlocks(uncompressedSize)));
        writer.state := MultipleBlocks([]);
      }
      return Ok(writer);
    }

    ghost predicate CanAdd(block: seq<byte>)
      reads this, dest
    {
      |block| <= U32_MAX &&
      match state
      case Empty => false
      case SingleBlock(present) =>
        present == [] && (|block| <= MAX_XATTR_DATA_SIZE || CanOpenWith(block))
      case MultipleBlocks(sizes) =>
        |sizes| + 1 < U32_MAX && dest.CanWrite(block)
    }

    ghost predicate CanOpenWith(block: seq<byte>)
      reads this
    {
      var start := HeaderSize(kind, NumBlocks(uncompressedSize));
      start <= dest.seekLimit && (block == [] || start + |block| <= dest.writeLimit)
    }

    /** A block longer than 32 bits trips an assertion, and so does a second block for a file
        of a single one. */
    method AddBlock(block: seq<byte>) returns (r: Result<()>)
      requires Valid()
      modifies this, dest
      ensures r.Ok? ==> old(CanAdd(block))
      ensures dest.reliable && old(CanAdd(block)) ==> r.Ok?
      ensures r.Ok? ==>
        Valid() && blocks == if block == [] && old(state.SingleBlock?) then [] else old(blocks) + [block]
      ensures r.Ok? ==> (state.SingleBlock? <==> old(state.SingleBlock?) && |block| <= MAX_XATTR_DATA_SIZE)
    {
      if |block| > U32_MAX {
        return Err(Panicked);
      }
      match state
      case SingleBlock(present) =>
        if present != [] {
          return Err(Panicked);
        }
        if |block| > MAX_XATTR_DATA_SIZE {
          r := WriteSingleBlockAsRfork(block);
        } else {
          state := SingleBlock(block);
          blocks := if block == [] then [] else [block];
          r := Ok(());
        }
      case MultipleBlocks(blockSizes) =>
        if |blockSizes| + 1 >= U32_MAX {
          return Err(InvalidData);
        }
        state := MultipleBlocks(blockSizes + [|block|]);
        ghost var start := HeaderSize(kind, NumBlocks(uncompressedSize));
        AppendBlock(start, blocks, block);
        blocks := blocks + [block];
        r := dest.WriteAll(block);
    }

    /** Moves the one block of a single-block file to the store. */
    method WriteSingleBlockAsRfork(block: seq<byte>) returns (r: Result<()>)
      requires Valid() && state.SingleBlock?
      modifies this, dest
      ensures r.Ok? ==> old(CanOpenWith(block))
      ensures dest.reliable && old(CanOpenWith(block)) ==> r.Ok?
      ensures r.Ok? ==> Valid() && state.MultipleBlocks? && blocks == [block]
      ensures r.Err? ==> state.Empty?
    {
      state := Empty;
      var start := HeaderSize(kind, NumBlocks(uncompressedSize));
      var _ :- dest.SeekStart(start);
      var _ :- dest.WriteAll(block);
      blocks := [block];
      assert Flatten(blocks) == block + Flatten([]);
      state := MultipleBlocks([|block|]);
      return Ok(());
    }

    method ForceResourceFork() returns (r: Result<()>)
      requires Valid()
      modifies this, dest
      ensures old(state.MultipleBlocks?) ==> r.Ok? && unchanged(this) && unchanged(dest)
      ensures old(state.SingleBlock?) && r.Ok? ==> Valid() && state.MultipleBlocks? && blocks == [old(state).block]
      ensures old(state.SingleBlock?) && dest.reliable && old(CanOpenWith(state.block)) ==> r.Ok?
    {
      if state.MultipleBlocks? {
        return Ok(());
      }
      var block := state.block;
      state, blocks := SingleBlock([]), [];
      r := WriteSingleBlockAsRfork(block);
    }

    ghost predicate CanFinish()
      reads this
    {
      if state.MultipleBlocks? then
        |blocks| == NumBlocks(uncompressedSize) && Fits(kind, Sizes(blocks), dest.writeLimit)
      else blocks != [] || uncompressedSize == 0 || !assertions
    }

    /** Completes the header, and for zlib the trailer, of a fork that has all its blocks. */
    method FinishFork(blockSizes: seq<nat>) returns (r: Result<()>)
      requires Valid() && state == MultipleBlocks(blockSizes) && |blocks| == NumBlocks(uncompressedSize)
      modifies dest
      ensures r.Ok? ==> Fits(kind, Sizes(blocks), dest.writeLimit)
      ensures dest.reliable && Fits(kind, Sizes(blocks), dest.writeLimit) ==> r.Ok?
      ensures r.Ok? ==> dest.data == Layout(kind, Sizes(blocks), Flatten(blocks))
    {
      FlattenLength(blocks);
      r := FinishBehindHole(kind, dest, blockSizes, Flatten(blocks));
    }

    /** The finished file, as attribute and fork. That a file kept inline has its block is only
        a debug assertion: without those, a missing block gives an attribute without data. */
    method FinishDecmpfsData() returns (r: Result<seq<byte>>)
      requires Valid()
      modifies dest
      ensures r.Ok? ==> old(CanFinish())
      ensures dest.reliable && old(CanFinish()) ==> r.Ok?
      ensures r.Ok? && state.SingleBlock? ==>
        r.value == InlineAttribute(kind, uncompressedSize, Flatten(blocks)) && dest.data == []
      ensures r.Ok? && state.MultipleBlocks? ==>
        && r.value == ForkAttribute(kind, uncompressedSize)
        && dest.data == Layout(kind, Sizes(blocks), Flatten(blocks))
      ensures r.Ok? && uncompressedSize < U64_LIMIT ==>
        && FromData(r.value).Ok? && FromData(r.value).value.uncompressedSize == uncompressedSize
        && Described(r.value).Ok? && Described(r.value).value.0 == kind
        && (Described(r.value).value.1.Xattr? <==> state.SingleBlock?)
        && FromData(r.value).value.extraData == if state.SingleBlock? then Flatten(blocks) else []
    {
      if uncompressedSize < U64_LIMIT {
        AttributeSays(kind, Xattr, uncompressedSize, Flatten(blocks));
        AttributeSays(kind, ResourceFork, uncompressedSize, []);
      }
      match state
      case SingleBlock(block) =>
        if assertions && block == [] && uncompressedSize != 0 {
          return Err(Panicked);
        }
        assert Flatten([block]) == block + Flatten([]);
        return Ok(InlineAttribute(kind, uncompressedSize, block));
      case MultipleBlocks(blockSizes) =>
        if |blockSizes| != NumBlocks(uncompressedSize) {
          return Err(InvalidInput);
        }
        var _ :- FinishFork(blockSizes);
        return Ok(ForkAttribute(kind, uncompressedSize));
    }
  }
}
