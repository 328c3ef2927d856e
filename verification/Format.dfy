/** Dispatch over the compression kinds: one view of both resource-fork layouts. */
module Format {
  import opened Bytes
  import opened Wrappers
  import opened Decmpfs
  import opened SeekableStore
  import ZlibFormat
  import LzFormat

  function HeaderSize(kind: Kind, blockCount: nat): (n: nat)
    ensures n >= 4 + 4 * blockCount
  {
    if kind.Zlib? then ZlibFormat.HeaderSize(blockCount) else LzFormat.HeaderSize(blockCount)
  }

  function TrailerSize(kind: Kind): nat {
    if kind.Zlib? then 50 else 0
  }

  /** A complete fork holding `body` as blocks of the given sizes. */
  function Layout(kind: Kind, sizes: seq<nat>, body: seq<byte>): (fork: seq<byte>)
    ensures |fork| == HeaderSize(kind, |sizes|) + |body| + TrailerSize(kind)
  {
    if kind.Zlib? then ZlibFormat.Layout(sizes, body) else LzFormat.Layout(sizes, body)
  }

  function ForkSize(kind: Kind, sizes: seq<nat>): nat {
    HeaderSize(kind, |sizes|) + Sum(sizes) + TrailerSize(kind)
  }

  /** Offsets stay in 32 bits and the store takes the whole fork. */
  predicate Fits(kind: Kind, sizes: seq<nat>, writeLimit: nat) {
    && HeaderSize(kind, |sizes|) + Sum(sizes) <= U32_MAX
    && ForkSize(kind, sizes) <= writeLimit
  }

  predicate WellFormed(kind: Kind, data: seq<byte>, blockCount: nat) {
    if kind.Zlib? then ZlibFormat.WellFormed(data, blockCount) else LzFormat.WellFormed(data, blockCount)
  }

  function Infos(kind: Kind, data: seq<byte>, blockCount: nat): seq<BlockInfo>
    requires WellFormed(kind, data, blockCount)
  {
    if kind.Zlib? then ZlibFormat.Infos(data, blockCount) else LzFormat.Infos(data, blockCount)
  }

  /** Whether a store can be completed from where it is. */
  ghost predicate CanFinish(kind: Kind, store: Store, sizes: seq<nat>)
    reads store
  {
    if kind.Zlib? then ZlibFormat.CanFinish(store, sizes) else LzFormat.CanFinish(store.writeLimit, sizes)
  }

  /** What completing makes of a store's bytes. */
  function Finished(kind: Kind, data: seq<byte>, dataEnd: nat, sizes: seq<nat>): seq<byte>
    requires kind.Zlib? ==> 0x104 <= dataEnd
  {
    if kind.Zlib? then ZlibFormat.Finished(data, dataEnd, sizes) else LzFormat.Finished(data, sizes)
  }

  /** Completes whatever a store holds, at whatever position. */
  method Finish(kind: Kind, store: Store, sizes: seq<nat>) returns (r: Result<()>)
    modifies store
    ensures r.Ok? ==> old(CanFinish(kind, store, sizes))
    ensures store.reliable && old(CanFinish(kind, store, sizes)) ==> r.Ok?
    ensures r.Ok? ==>
      store.data == Finished(kind, old(store.data), old(store.pos), sizes) && store.pos == HeaderSize(kind, |sizes|)
  {
    if kind.Zlib? {
      r := ZlibFormat.Finish(store, sizes);
    } else {
      r := LzFormat.Finish(store, sizes);
    }
  }

  /** Block data behind a hole of header size is completed to the layout. */
  lemma FinishedIsLayout(kind: Kind, sizes: seq<nat>, body: seq<byte>)
    ensures var start := HeaderSize(kind, |sizes|);
      (kind.Zlib? ==> 0x104 <= start) &&
      Finished(kind, Overwrite([], start, body), start + |body|, sizes) == Layout(kind, sizes, body)
  {
    if kind.Zlib? {
      ZlibFormat.FinishedIsLayout(sizes, body);
    } else {
      LzFormat.FinishedIsLayout(sizes, body);
    }
  }

  /** And it can be completed exactly when the whole fork fits. */
  lemma CanFinishIffFits(kind: Kind, store: Store, sizes: seq<nat>)
    requires store.pos == HeaderSize(kind, |sizes|) + Sum(sizes)
    requires Sum(sizes) > 0 ==> store.pos <= store.writeLimit
    ensures CanFinish(kind, store, sizes) <==> Fits(kind, sizes, store.writeLimit)
  {
  }

  /** Completes a fork whose block data lies behind its hole. */
  method FinishBehindHole(kind: Kind, store: Store, sizes: seq<nat>, ghost body: seq<byte>) returns (r: Result<()>)
    requires |body| == Sum(sizes)
    requires store.data == Overwrite([], HeaderSize(kind, |sizes|), body)
    requires store.pos == HeaderSize(kind, |sizes|) + |body|
    requires body != [] ==> store.pos <= store.writeLimit
    modifies store
    ensures r.Ok? ==> Fits(kind, sizes, store.writeLimit)
    ensures store.reliable && Fits(kind, sizes, store.writeLimit) ==> r.Ok?
    ensures r.Ok? ==> store.data == Layout(kind, sizes, body)
  {
    FinishedIsLayout(kind, sizes, body);
    CanFinishIffFits(kind, store, sizes);
    r := Finish(kind, store, sizes);
  }

  method ReadBlockInfo(kind: Kind, store: Store, origFileSize: nat) returns (r: Result<seq<BlockInfo>>)
    modifies store`pos
    ensures r.Ok? ==>
      && WellFormed(kind, store.data, NumBlocks(origFileSize))
      && r.value == Infos(kind, store.data, NumBlocks(origFileSize))
    ensures store.reliable && WellFormed(kind, store.data, NumBlocks(origFileSize)) ==> r.Ok?
  {
    if kind.Zlib? {
      r := ZlibFormat.ReadBlockInfo(store, origFileSize);
    } else {
      r := LzFormat.ReadBlockInfo(store, origFileSize);
    }
  }

  /** Every layout within 32 bits is accepted, and each reported block reads back as the
      piece of the body it was written from. */
  lemma LayoutParses(kind: Kind, sizes: seq<nat>, body: seq<byte>)
    requires |body| == Sum(sizes) && |Layout(kind, sizes, body)| <= U32_MAX
    ensures WellFormed(kind, Layout(kind, sizes, body), |sizes|)
    ensures Infos(kind, Layout(kind, sizes, body), |sizes|) == BlockPositions(HeaderSize(kind, |sizes|), sizes)
  {
    if kind.Zlib? {
      ZlibFormat.LayoutParses(sizes, body);
    } else {
      LzFormat.LayoutParses(sizes, body);
    }
  }

  lemma LayoutData(kind: Kind, sizes: seq<nat>, body: seq<byte>, offset: nat, size: nat)
    requires offset + size <= |body|
    ensures Window(Layout(kind, sizes, body), HeaderSize(kind, |sizes|) + offset, size) == body[offset..offset + size]
  {
    if kind.Zlib? {
      ZlibFormat.LayoutData(sizes, body, offset, size);
    } else {
      LzFormat.LayoutData(sizes, body, offset, size);
    }
  }

  /** Every kind's fork starts and ends as its format has it: for zlib the header's numbers, the
      number of blocks and the trailer, for the LZ kinds the offset of the first block and no
      trailer. */
  lemma LayoutBytes(kind: Kind, sizes: seq<nat>, body: seq<byte>)
    ensures var fork, n := Layout(kind, sizes, body), |sizes|;
      if kind == Zlib then
        && |fork| == 0x108 + 8 * n + |body| + 50
        && fork[..4] == BE32(0x100) && fork[4..8] == BE32(|fork| - 50)
        && fork[8..12] == BE32(|fork| - 50 - 0x100) && fork[12..16] == BE32(0x32)
        && fork[0x104..0x108] == LE32(n) && fork[|fork| - 50..] == ZlibTrailer()
      else
        |fork| == 4 * (n + 1) + |body| && fork[..4] == LE32(4 * (n + 1)) && fork[4 * (n + 1)..] == body
  {
    if kind == Zlib {
      ZlibFormat.LayoutBytes(sizes, body);
    } else {
      LzFormat.LayoutBytes(sizes, body, 0);
    }
  }

  /** For every file length admitted to compression the header is small, and in a fork that
      fits, no block's offset or end leaves 32 bits. */
  lemma AdmittedOffsetsFit(kind: Kind, fileSize: nat, sizes: seq<nat>, i: nat)
    requires 0 < fileSize < U32_MAX && |sizes| == NumBlocks(fileSize) && i < |sizes|
    requires Fits(kind, sizes, U32_MAX)
    ensures |sizes| <= 0x10000 && HeaderSize(kind, |sizes|) <= 0x80108
    ensures var position := BlockPositions(HeaderSize(kind, |sizes|), sizes)[i];
      && HeaderSize(kind, |sizes|) <= position.offset
      && position.offset + position.compressedSize + TrailerSize(kind) <= U32_MAX
  {
    SumPrefix(sizes, i);
  }

  // ----- which files fit

  /** The sizes of a file's blocks when every one of them is stored: a byte more than it has. */
  function StoredSizes(fileSize: nat): (sizes: seq<nat>)
    ensures |sizes| == NumBlocks(fileSize)
  {
    if fileSize == 0 then []
    else if fileSize <= BLOCK_SIZE then [fileSize + 1]
    else [BLOCK_SIZE + 1] + StoredSizes(fileSize - BLOCK_SIZE)
  }

  lemma {:induction false} StoredSizesSum(fileSize: nat)
    ensures Sum(StoredSizes(fileSize)) == fileSize + NumBlocks(fileSize)
  {
    if fileSize <= BLOCK_SIZE {
    } else {
      StoredSizesSum(fileSize - BLOCK_SIZE);
      assert StoredSizes(fileSize)[1..] == StoredSizes(fileSize - BLOCK_SIZE);
    }
  }

  predicate NoLarger(sizes: seq<nat>, bounds: seq<nat>) {
    |sizes| == |bounds| && forall i :: 0 <= i < |sizes| ==> sizes[i] <= bounds[i]
  }

  lemma {:induction false} NoLargerSum(sizes: seq<nat>, bounds: seq<nat>)
    requires NoLarger(sizes, bounds)
    ensures Sum(sizes) <= Sum(bounds)
  {
    if sizes == [] {
    } else {
      NoLargerSum(sizes[1..], bounds[1..]);
    }
  }

  /** A file so short that its fork fits 32 bits even if no block gets smaller. */
  predicate FitsStored(kind: Kind, fileSize: nat) {
    HeaderSize(kind, NumBlocks(fileSize)) + fileSize + NumBlocks(fileSize) + TrailerSize(kind) <= U32_MAX
  }

  /** Exactly for these lengths does every fork fit whose blocks are at most stored; all of
      them are up to 0x9013A bytes short of 32 bits, which leaves out some admitted ones. */
  lemma AdmittedForksFit(kind: Kind, fileSize: nat)
    ensures FitsStored(kind, fileSize) <==>
      forall sizes: seq<nat> :: NoLarger(sizes, StoredSizes(fileSize)) ==> Fits(kind, sizes, U32_MAX)
    ensures fileSize <= U32_MAX - 0x9013A ==> FitsStored(kind, fileSize)
    ensures !FitsStored(kind, U32_MAX - 1)
  {
    StoredSizesSum(fileSize);
    forall sizes: seq<nat> | NoLarger(sizes, StoredSizes(fileSize))
      ensures Sum(sizes) <= fileSize + NumBlocks(fileSize)
    {
      NoLargerSum(sizes, StoredSizes(fileSize));
    }
    if forall sizes: seq<nat> :: NoLarger(sizes, StoredSizes(fileSize)) ==> Fits(kind, sizes, U32_MAX) {
      assert NoLarger(StoredSizes(fileSize), StoredSizes(fileSize));
    }
  }
}
