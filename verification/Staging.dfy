/** Staging a file in scratch space under a worst-case reservation. */
module Staging {
  import opened Bytes
  import opened Wrappers
  import opened Decmpfs
  import opened Format
  import opened CompressedWriter
  import opened BlockWriting
  import opened CompressedReader
  import opened ScratchBudget
  import opened Streams
  import SeekableStore

  /** Every block at the compressor's buffer capacity, the format header, a trailer, and the
      attribute. */
  function CompressedReservationSize(kind: Kind, fileSize: nat): (bytes: nat)
    ensures bytes >= MAX_XATTR_SIZE
  {
    NumBlocks(fileSize) * COMPRESSED_BLOCK_CAPACITY + HeaderSize(kind, NumBlocks(fileSize)) + 50 + MAX_XATTR_SIZE
  }

  /** In bytes: 66560 for every 65536 of the file or part of that, and the fixed shares. */
  lemma ReservationInBytes(kind: Kind, fileSize: nat, n: nat)
    requires (if n == 0 then 0 else (n - 1) * 0x10000 + 1) <= fileSize <= n * 0x10000
    ensures CompressedReservationSize(kind, fileSize) ==
      n * 66560 + (if kind == Zlib then 0x108 + 8 * n else 4 * (n + 1)) + 50 + 3802
  {
    BlocksOf(fileSize, n);
  }

  lemma {:induction false} SumBound(sizes: seq<nat>, each: nat)
    requires forall i :: 0 <= i < |sizes| ==> sizes[i] <= each
    ensures Sum(sizes) <= |sizes| * each
  {
    if sizes == [] {
    } else {
      SumBound(sizes[1..], each);
    }
  }

  /** The reservation really is the worst case: whatever the compressors produce, the
      complete fork fits what is left after the attribute's share. */
  lemma ReservationCoversOutput(kind: Kind, fileSize: nat, blocks: seq<seq<byte>>)
    requires |blocks| == NumBlocks(fileSize)
    requires forall block <- blocks :: |block| <= COMPRESSED_BLOCK_CAPACITY
    ensures ForkSize(kind, Sizes(blocks)) <= CompressedReservationSize(kind, fileSize) - MAX_XATTR_SIZE
  {
    SumBound(Sizes(blocks), COMPRESSED_BLOCK_CAPACITY);
  }

  /** Either finished form keeps its attribute within its share, and its fork within the
      write limit. */
  lemma StoredWithin(
      kind: Kind, fileSize: nat, blocks: seq<seq<byte>>, attribute: seq<byte>, fork: seq<byte>, writeLimit: nat)
    requires Stored(kind, fileSize, blocks, attribute, fork)
    requires StoredInline(blocks) || Fits(kind, Sizes(blocks), writeLimit)
    ensures |attribute| <= MAX_XATTR_SIZE && |fork| <= writeLimit
  {
    FlattenLength(blocks);
    if StoredInline(blocks) && blocks != [] {
      assert Sizes(blocks) == [|blocks[0]|];
    }
  }

  lemma {:induction false} ExactSum(sizes: seq<nat>, each: nat)
    requires forall i :: 0 <= i < |sizes| ==> sizes[i] == each
    ensures Sum(sizes) == |sizes| * each
  {
    if sizes == [] {
    } else {
      ExactSum(sizes[1..], each);
    }
  }

  /** How much a staged file can take of its reservation. The attribute of a file with a fork
      has no data in it, so the share for that, and for the LZ kinds that of a trailer, always
      stays free. */
  lemma StagedAtMost(kind: Kind, fileSize: nat, blocks: seq<seq<byte>>, attribute: seq<byte>, fork: seq<byte>)
    requires |blocks| == NumBlocks(fileSize) && Stored(kind, fileSize, blocks, attribute, fork)
    requires forall block <- blocks :: |block| <= COMPRESSED_BLOCK_CAPACITY
    ensures |fork| + |attribute| <=
      CompressedReservationSize(kind, fileSize) - MAX_XATTR_DATA_SIZE - (50 - TrailerSize(kind))
  {
    FlattenLength(blocks);
    SumBound(Sizes(blocks), COMPRESSED_BLOCK_CAPACITY);
    if StoredInline(blocks) && blocks != [] {
      assert Sizes(blocks) == [|blocks[0]|];
    }
  }

  /** And that is the exact maximum: full buffers come to it. */
  lemma FullBuffersTakeThat(kind: Kind, fileSize: nat, blocks: seq<seq<byte>>, attribute: seq<byte>, fork: seq<byte>)
    requires |blocks| == NumBlocks(fileSize) > 0 && Stored(kind, fileSize, blocks, attribute, fork)
    requires forall block <- blocks :: |block| == COMPRESSED_BLOCK_CAPACITY
    ensures |fork| + |attribute| ==
      CompressedReservationSize(kind, fileSize) - MAX_XATTR_DATA_SIZE - (50 - TrailerSize(kind))
    ensures |fork| == CompressedReservationSize(kind, fileSize) - MAX_XATTR_SIZE - (50 - TrailerSize(kind))
  {
    FlattenLength(blocks);
    ExactSum(Sizes(blocks), COMPRESSED_BLOCK_CAPACITY);
    assert |blocks[0]| == COMPRESSED_BLOCK_CAPACITY;
  }

  /** Within the reservation, blocks are refused only for the size limit or for 32 bits. */
  lemma ReservationNeverRefuses(kind: Kind, fileSize: nat, blocks: seq<seq<byte>>, maxCompressedSize: nat)
    requires |blocks| == NumBlocks(fileSize)
    requires forall block <- blocks :: |block| <= COMPRESSED_BLOCK_CAPACITY
    requires !Storable(kind, blocks, maxCompressedSize, CompressedReservationSize(kind, fileSize) - MAX_XATTR_SIZE)
    ensures |Flatten(blocks)| > maxCompressedSize || HeaderSize(kind, NumBlocks(fileSize)) + |Flatten(blocks)| > U32_MAX
  {
    FlattenLength(blocks);
    ReservationCoversOutput(kind, fileSize, blocks);
  }

  /** Writes a compressed file to a payload as large as its reservation allows. */
  method WritePayload(
      kind: Kind, fileSize: nat, delivery: Delivery, maxCompressedSize: nat, assertions: bool, reliable: bool)
    returns (r: Result<(seq<byte>, seq<byte>)>)
    requires forall chunk <- delivery.chunks :: 0 < |chunk.block| <= COMPRESSED_BLOCK_CAPACITY
    ensures r.Ok? ==>
      && delivery.end.Ok? && Counted(fileSize, Blocks(delivery.chunks), assertions)
      && Stored(kind, fileSize, Blocks(delivery.chunks), r.value.1, r.value.0)
      && |Flatten(Blocks(delivery.chunks))| <= maxCompressedSize
      && |r.value.1| <= MAX_XATTR_SIZE && |r.value.0| <= CompressedReservationSize(kind, fileSize) - MAX_XATTR_SIZE
    ensures reliable && delivery.end.Ok? && |delivery.chunks| == NumBlocks(fileSize) && r.Err? ==>
      !Storable(kind, Blocks(delivery.chunks), maxCompressedSize,
        CompressedReservationSize(kind, fileSize) - MAX_XATTR_SIZE)
  {
    var limit := CompressedReservationSize(kind, fileSize) - MAX_XATTR_SIZE;
    var payload := new SeekableStore.Store(limit, U64_LIMIT, reliable);
    KeptWhole(NumBlocks(fileSize) <= 1, delivery.chunks);
    var attribute :- WriteCompressedBlocks(kind, fileSize, payload, delivery, maxCompressedSize, assertions);
    StoredWithin(kind, fileSize, Blocks(delivery.chunks), attribute, payload.data, limit);
    return Ok((payload.data, attribute));
  }

  /** Stages a compressed file in memory and cuts its reservation down to what is used: the
      output stays within the reservation, as `ShrinkTo` demands. A complete delivery of
      buffer-sized blocks is refused only for its size limit or for not fitting 32 bits;
      the reservation never gets in the way. */
  method StageCompressedFile(
      kind: Kind, fileSize: nat, delivery: Delivery, maxCompressedSize: nat, budget: Budget, ghost id: nat, held: nat,
      assertions: bool, reliable: bool)
    returns (r: Result<(seq<byte>, seq<byte>)>)
    requires budget.Valid() && budget.View().Holds(id) && budget.live[id].value == held
    requires held == CompressedReservationSize(kind, fileSize)
    requires forall chunk <- delivery.chunks :: 0 < |chunk.block| <= COMPRESSED_BLOCK_CAPACITY
    modifies budget
    ensures budget.Valid()
    ensures r.Ok? ==> delivery.end.Ok? && Counted(fileSize, Blocks(delivery.chunks), assertions)
    ensures r.Ok? ==> Stored(kind, fileSize, Blocks(delivery.chunks), r.value.1, r.value.0)
    ensures r.Ok? ==> |Flatten(Blocks(delivery.chunks))| <= maxCompressedSize
    ensures r.Ok? ==> |r.value.1| <= MAX_XATTR_SIZE && |r.value.0| + |r.value.1| <= held
    ensures r.Ok? ==>
      var bytes := |r.value.0| + |r.value.1|;
      && budget.View() == Step(old(budget.View()), Shrink(id, bytes))
      && budget.used == old(budget.used) - (held - bytes) && budget.live == old(budget.live)[id := Some(bytes)]
    ensures r.Err? ==> budget.View() == old(budget.View())
    ensures reliable && delivery.end.Ok? && |delivery.chunks| == NumBlocks(fileSize) && r.Err? ==>
      || |Flatten(Blocks(delivery.chunks))| > maxCompressedSize
      || HeaderSize(kind, NumBlocks(fileSize)) + |Flatten(Blocks(delivery.chunks))| > U32_MAX
  {
    r := WritePayload(kind, fileSize, delivery, maxCompressedSize, assertions, reliable);
    if r.Ok? {
      budget.ShrinkTo(id, held, |r.value.0| + |r.value.1|);
    } else if reliable && delivery.end.Ok? && |delivery.chunks| == NumBlocks(fileSize) {
      ReservationNeverRefuses(kind, fileSize, Blocks(delivery.chunks), maxCompressedSize);
    }
  }

  /** A finished file can be read back, and then holds exactly its blocks, if and only if its
      fork is one of 32 bits: the trailer of a zlib fork may be staged beyond that. */
  lemma FinishedIsReadable(kind: Kind, fileSize: nat, blocks: seq<seq<byte>>, attribute: seq<byte>, fork: seq<byte>)
    requires fileSize < U64_LIMIT && (StoredInline(blocks) || |blocks| == NumBlocks(fileSize))
    requires Stored(kind, fileSize, blocks, attribute, fork)
    requires forall block <- blocks :: block != []
    ensures Contents(attribute, fork).Ok? <==> |fork| <= U32_MAX
    ensures |fork| <= U32_MAX ==> Contents(attribute, fork) == Ok((kind, blocks))
  {
    FlattenLength(blocks);
    if StoredInline(blocks) {
      if blocks != [] {
        assert blocks[0] in blocks && blocks == [blocks[0]];
        assert blocks[1..] == [] && blocks[0] + [] == blocks[0];
      }
      InlineRoundTrip(kind, fileSize, Flatten(blocks), fork);
    } else if |fork| <= U32_MAX {
      ForkRoundTrip(kind, fileSize, blocks);
    } else {
      ValueRoundTrip(Value(RawType(kind, ResourceFork), fileSize, []));
      LargeForkIsRefused(kind, fork, |blocks|);
    }
  }

  lemma LargeForkIsRefused(kind: Kind, fork: seq<byte>, blockCount: nat)
    requires |fork| > U32_MAX
    ensures !WellFormed(kind, fork, blockCount)
  {
  }

  /** Publishes a staged payload: copies it to a resource fork, whatever the copying is broken
      into, removes it, and then gives back its reservation, also after a failure. Nothing more
      is staged once a payload cannot be removed. */
  method Publish(
      payload: seq<byte>, budget: Budget, ghost id: nat, held: nat, closes: bool, readScript: seq<ReadEvent>,
      writeScript: seq<WriteEvent>)
    returns (r: Result<seq<byte>>)
    requires budget.Valid() && budget.View().Holds(id) && budget.live[id].value == held
    modifies budget
    ensures budget.Valid() && budget.used == old(budget.used) - held && budget.live == old(budget.live)[id := None]
    ensures budget.stopped == (old(budget.stopped) || !closes)
    ensures r.Ok? ==> r.value == payload && |payload| <= U32_MAX
    ensures r.Err? ==>
      ReadFault in readScript || WriteFault in writeScript || WriteNothing in writeScript || |payload| > U32_MAX
  {
    var source := new Source(payload, readScript);
    var fork := new Sink(writeScript, Some(U32_MAX));
    var buffer := new byte[4 * 1024 * 1024];
    var copied, _ := CopyPayload(source, fork, buffer);
    assert payload[0..|payload|] == payload && [] + payload == payload;
    if !closes {
      budget.StopAll();
    }
    budget.DropReservation(id, held);
    return if copied.Err? then Err(copied.error) else Ok(fork.received);
  }

  /** What staging refuses could not have been stored in a resource fork either. */
  lemma RefusedIsUnstorable(kind: Kind, fileSize: nat, blocks: seq<seq<byte>>, maxCompressedSize: nat)
    requires |blocks| == NumBlocks(fileSize)
    requires |Flatten(blocks)| > maxCompressedSize
      || HeaderSize(kind, NumBlocks(fileSize)) + |Flatten(blocks)| > U32_MAX
    ensures !Storable(kind, blocks, maxCompressedSize, U32_MAX)
  {
    FlattenLength(blocks);
    if StoredInline(blocks) && blocks != [] {
      assert blocks[1..] == [] && blocks[0] + [] == blocks[0];
    }
  }

  /** A finished file can be published exactly when it could have been written directly. */
  lemma PublishableIffStorable(
      kind: Kind, fileSize: nat, blocks: seq<seq<byte>>, attribute: seq<byte>, fork: seq<byte>, maxCompressedSize: nat)
    requires Stored(kind, fileSize, blocks, attribute, fork) && |Flatten(blocks)| <= maxCompressedSize
    ensures |fork| <= U32_MAX <==> Storable(kind, blocks, maxCompressedSize, U32_MAX)
  {
    FlattenLength(blocks);
  }

  method PublishStaged(
      kind: Kind, fileSize: nat, ghost blocks: seq<seq<byte>>, payload: seq<byte>, attribute: seq<byte>,
      ghost maxCompressedSize: nat, budget: Budget, ghost id: nat, closes: bool, readScript: seq<ReadEvent>,
      writeScript: seq<WriteEvent>)
    returns (r: Result<(seq<byte>, seq<byte>)>)
    requires budget.Valid() && budget.View().Holds(id) && budget.live[id].value == |payload| + |attribute|
    requires fileSize < U64_LIMIT && (StoredInline(blocks) || |blocks| == NumBlocks(fileSize))
    requires forall block <- blocks :: block != []
    requires Stored(kind, fileSize, blocks, attribute, payload) && |Flatten(blocks)| <= maxCompressedSize
    modifies budget
    ensures budget.Valid() && budget.used == old(budget.used) - (|payload| + |attribute|)
    ensures budget.live == old(budget.live)[id := None] && budget.stopped == (old(budget.stopped) || !closes)
    ensures r.Ok? ==> r.value == (payload, attribute) && Contents(attribute, payload) == Ok((kind, blocks))
    ensures r.Ok? ==> |payload| <= U32_MAX && Storable(kind, blocks, maxCompressedSize, U32_MAX)
    ensures r.Err? ==>
      || ReadFault in readScript || WriteFault in writeScript || WriteNothing in writeScript
      || !Storable(kind, blocks, maxCompressedSize, U32_MAX)
  {
    FinishedIsReadable(kind, fileSize, blocks, attribute, payload);
    PublishableIffStorable(kind, fileSize, blocks, attribute, payload, maxCompressedSize);
    var published := Publish(payload, budget, id, |payload| + |attribute|, closes, readScript, writeScript);
    return if published.Err? then Err(published.error) else Ok((published.value, attribute));
  }

  /** From the block queue through scratch space to the destination: staged under its
      reservation, published, and the reservation given back whatever happens. What arrives
      holds exactly the delivered blocks, and what is refused is so for its size limit or
      because its fork is longer than 32 bits. */
  method StageAndPublish(
      kind: Kind, fileSize: nat, delivery: Delivery, maxCompressedSize: nat, budget: Budget, ghost id: nat, held: nat,
      assertions: bool, reliable: bool, closes: bool, readScript: seq<ReadEvent>, writeScript: seq<WriteEvent>)
    returns (r: Result<(seq<byte>, seq<byte>)>)
    requires budget.Valid() && budget.View().Holds(id) && budget.live[id].value == held
    requires held == CompressedReservationSize(kind, fileSize) && fileSize < U64_LIMIT
    requires forall chunk <- delivery.chunks :: 0 < |chunk.block| <= COMPRESSED_BLOCK_CAPACITY
    modifies budget
    ensures budget.Valid() && budget.live == old(budget.live)[id := None] && budget.used == old(budget.used) - held
    ensures closes ==> budget.stopped == old(budget.stopped)
    ensures r.Ok? ==>
      && delivery.end.Ok? && Counted(fileSize, Blocks(delivery.chunks), assertions)
      && Stored(kind, fileSize, Blocks(delivery.chunks), r.value.1, r.value.0)
      && Storable(kind, Blocks(delivery.chunks), maxCompressedSize, U32_MAX)
      && Contents(r.value.1, r.value.0) == Ok((kind, Blocks(delivery.chunks)))
    ensures delivery.end.Ok? && |delivery.chunks| == NumBlocks(fileSize) && r.Err? ==>
      || !reliable || ReadFault in readScript || WriteFault in writeScript || WriteNothing in writeScript
      || !Storable(kind, Blocks(delivery.chunks), maxCompressedSize, U32_MAX)
  {
    var staged :=
      StageCompressedFile(kind, fileSize, delivery, maxCompressedSize, budget, id, held, assertions, reliable);
    if staged.Err? {
      if reliable && delivery.end.Ok? && |delivery.chunks| == NumBlocks(fileSize) {
        RefusedIsUnstorable(kind, fileSize, Blocks(delivery.chunks), maxCompressedSize);
      }
      budget.DropReservation(id, held);
      return Err(staged.error);
    }
    var (payload, attribute) := staged.value;
    KeptWhole(NumBlocks(fileSize) <= 1, delivery.chunks);
    assert budget.live[id := None] == old(budget.live)[id := None];
    r := PublishStaged(kind, fileSize, Blocks(delivery.chunks), payload, attribute, maxCompressedSize, budget, id,
      closes, readScript, writeScript);
  }

  /** Stages a decompressed file under a reservation of its full size, which the output
      never exceeds. */
  method StageUncompressedFile(fileSize: nat, delivery: Delivery, script: seq<WriteEvent>)
    returns (r: Result<seq<byte>>, staged: nat)
    ensures staged <= fileSize
    ensures r.Ok? ==> |r.value| == staged == fileSize && r.value == Flatten(Blocks(delivery.chunks))
    ensures r.Err? ==>
      || WriteFault in script || WriteNothing in script
      || delivery.end.Err? || |Flatten(Blocks(delivery.chunks))| != fileSize
  {
    var payload := new Sink(script, None);
    var written := WriteUncompressedBlocks(fileSize, payload, delivery);
    staged := |payload.received|;
    if written.Err? {
      return Err(written.error), staged;
    }
    return Ok(payload.received), staged;
  }
}
