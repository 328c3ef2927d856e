/** The zlib resource-fork layout: a header and trailer around big- and little-endian
    fields, a table of (offset, size) pairs, and the block data in between. */
module ZlibFormat {
  import opened Bytes
  import opened Wrappers
  import opened Decmpfs
  import opened SeekableStore

  function HeaderSize(blockCount: nat): nat {
    ZLIB_BLOCK_TABLE_START + 4 + blockCount * 8
  }

  function Header(dataEnd: nat): (h: seq<byte>)
    requires 0x100 <= dataEnd
    ensures |h| == 16
  {
    BE32(0x100) + BE32(dataEnd) + BE32(dataEnd - 0x100) + BE32(0x32)
  }

  function Entry(offset: nat, size: nat): (e: seq<byte>)
    ensures |e| == 8
  {
    LE32(offset) + LE32(size)
  }

  /** Table entries for consecutive blocks, offsets counted from 0x104. */
  function Table(offset: nat, sizes: seq<nat>): (t: seq<byte>)
    ensures |t| == 8 * |sizes|
    decreases |sizes|
  {
    if sizes == [] then []
    else Entry(offset, sizes[0]) + Table(offset + sizes[0], sizes[1..])
  }

  /** The two counts at 0x100. */
  function Fields(blockCount: nat, dataEnd: nat): (t: seq<byte>)
    requires 0x104 <= dataEnd
    ensures |t| == 8
  {
    BE32(dataEnd - 0x104) + LE32(blockCount)
  }

  /** Everything written from 0x100 on before the block data. */
  function Preamble(sizes: seq<nat>, dataEnd: nat): (t: seq<byte>)
    requires 0x104 <= dataEnd
    ensures |t| == 8 + 8 * |sizes|
  {
    Fields(|sizes|, dataEnd) + Table(HeaderSize(|sizes|) - 0x104, sizes)
  }

  /** What a fork starts with, up to its table. */
  function Leading(blockCount: nat, dataEnd: nat): (before: seq<byte>)
    requires 0x104 <= dataEnd
    ensures |before| == 0x108
  {
    Header(dataEnd) + Zeros(0xF0) + Fields(blockCount, dataEnd)
  }

  /** A fork whose block data is `body`, cut into blocks of the given sizes. */
  function Layout(sizes: seq<nat>, body: seq<byte>): (fork: seq<byte>)
    ensures |fork| == HeaderSize(|sizes|) + |body| + 50
  {
    var h := HeaderSize(|sizes|);
    Leading(|sizes|, h + |body|) + Table(h - 0x104, sizes) + (body + ZlibTrailer())
  }

  // ----- writing

  /** Whether `finish` can represent its counts and offsets and fit what it writes. */
  ghost predicate CanFinish(store: Store, sizes: seq<nat>)
    reads store
  {
    && 0x104 <= store.pos <= U32_MAX && |sizes| < U32_LIMIT
    && Max(store.pos + 50, HeaderSize(|sizes|)) <= store.writeLimit
    && HeaderSize(|sizes|) - 0x104 + Sum(sizes) <= U32_MAX
  }

  function Finished(data: seq<byte>, dataEnd: nat, sizes: seq<nat>): seq<byte>
    requires 0x104 <= dataEnd
  {
    Overwrite(Overwrite(Overwrite(data, dataEnd, ZlibTrailer()), 0, Header(dataEnd)), 0x100, Preamble(sizes, dataEnd))
  }

  lemma TableUnfolds(offset: nat, sizes: seq<nat>, i: nat)
    requires i < |sizes|
    ensures Table(offset, sizes[i..]) == Entry(offset, sizes[i]) + Table(offset + sizes[i], sizes[i + 1..])
    ensures Sum(sizes[i..]) == sizes[i] + Sum(sizes[i + 1..])
  {
    assert sizes[i..][1..] == sizes[i + 1..];
  }

  /** Writing one entry leaves the rest of the table to be written. */
  lemma TableStep(data: seq<byte>, pos: nat, offset: nat, sizes: seq<nat>, i: nat)
    requires i < |sizes|
    ensures Overwrite(Overwrite(data, pos, Entry(offset, sizes[i])), pos + 8, Table(offset + sizes[i], sizes[i + 1..]))
            == Overwrite(data, pos, Table(offset, sizes[i..]))
    ensures Sum(sizes[i..]) == sizes[i] + Sum(sizes[i + 1..])
  {
    TableUnfolds(offset, sizes, i);
    OverwriteAppend(data, pos, Entry(offset, sizes[i]), Table(offset + sizes[i], sizes[i + 1..]));
  }

  /** One turn of the table loop: an entry, and the next one's offset. */
  method WriteEntry(store: Store, offset: nat, sizes: seq<nat>, i: nat) returns (r: Result<nat>)
    requires i < |sizes|
    modifies store
    ensures r.Ok? ==> r.value == offset + sizes[i] <= U32_MAX && store.pos <= store.writeLimit
    ensures store.reliable && offset + sizes[i] <= U32_MAX && old(store.pos) + 8 <= store.writeLimit ==> r.Ok?
    ensures r.Ok? ==>
      && store.pos == old(store.pos) + 8
      && Overwrite(store.data, store.pos, Table(r.value, sizes[i + 1..]))
         == Overwrite(old(store.data), old(store.pos), Table(offset, sizes[i..]))
    ensures Sum(sizes[i..]) == sizes[i] + Sum(sizes[i + 1..])
  {
    TableStep(store.data, store.pos, offset, sizes, i);
    var size := sizes[i];
    var _ :- store.WriteAll(Entry(offset, size));
    return if offset + size > U32_MAX then Err(Other) else Ok(offset + size);
  }

  /** The table loop: one entry per block, failing once an offset leaves 32 bits. */
  method WriteTable(store: Store, start: nat, sizes: seq<nat>) returns (r: Result<()>)
    requires start <= U32_MAX
    modifies store
    ensures r.Ok? ==> start + Sum(sizes) <= U32_MAX && (sizes == [] || store.pos <= store.writeLimit)
    ensures store.reliable && start + Sum(sizes) <= U32_MAX && old(store.pos) + 8 * |sizes| <= store.writeLimit ==>
      r.Ok?
    ensures r.Ok? ==> store.data == Overwrite(old(store.data), old(store.pos), Table(start, sizes))
    ensures r.Ok? ==> store.pos == old(store.pos) + 8 * |sizes|
  {
    var currentOffset: nat := start;
    assert sizes[0..] == sizes;
    for i := 0 to |sizes|
      invariant store.pos == old(store.pos) + 8 * i
      invariant Overwrite(store.data, store.pos, Table(currentOffset, sizes[i..]))
                == Overwrite(old(store.data), old(store.pos), Table(start, sizes))
      invariant currentOffset + Sum(sizes[i..]) == start + Sum(sizes)
      invariant currentOffset <= U32_MAX && (i > 0 ==> store.pos <= store.writeLimit)
    {
      currentOffset :- WriteEntry(store, currentOffset, sizes, i);
    }
    return Ok(());
  }

  lemma PreambleInParts(data: seq<byte>, size: seq<byte>, count: seq<byte>, table: seq<byte>)
    requires |size| == 4 && |count| == 4
    ensures Overwrite(Overwrite(Overwrite(data, 0x100, size), 0x104, count), 0x108, table)
            == Overwrite(data, 0x100, size + count + table)
  {
    OverwriteAppend(data, 0x100, size, count);
    OverwriteAppend(data, 0x100, size + count, table);
  }

  /** The fields at 0x100, ahead of the table. */
  method WritePreamble(store: Store, sizes: seq<nat>, dataEnd: nat) returns (r: Result<()>)
    requires 0x104 <= dataEnd <= U32_MAX && store.pos == 0x100
    modifies store
    ensures r.Ok? ==> HeaderSize(|sizes|) - 0x104 + Sum(sizes) <= U32_MAX && HeaderSize(|sizes|) <= store.writeLimit
    ensures store.reliable && r.Err? ==>
      HeaderSize(|sizes|) - 0x104 + Sum(sizes) > U32_MAX || HeaderSize(|sizes|) > store.writeLimit
    ensures r.Ok? ==> store.data == Overwrite(old(store.data), 0x100, Preamble(sizes, dataEnd))
    ensures r.Ok? ==> store.pos == HeaderSize(|sizes|)
  {
    var start := HeaderSize(|sizes|) - ZLIB_BLOCK_TABLE_START;
    var sizeField, countField := BE32(dataEnd - 0x104), LE32(|sizes|);
    PreambleInParts(store.data, sizeField, countField, Table(start, sizes));
    var _ :- store.WriteAll(sizeField);
    var _ :- store.WriteAll(countField);
    if start > U32_MAX {
      return Err(Panicked);
    }
    r := WriteTable(store, start, sizes);
  }

  lemma FourFields(a: seq<byte>, b: seq<byte>, c: seq<byte>, d: seq<byte>)
    requires |a| == |b| == |c| == |d| == 4
    ensures (a + b + c + d)[..4] == a && (a + b + c + d)[4..8] == b
    ensures (a + b + c + d)[8..12] == c && (a + b + c + d)[12..16] == d
  {
  }

  lemma PartsOf(data: seq<byte>, header: seq<byte>)
    requires |header| == 16 && |data| >= 16 && data[..16] == header
    ensures data[..4] == header[..4] && data[4..8] == header[4..8]
    ensures data[8..12] == header[8..12] && data[12..16] == header[12..16]
  {
  }

  lemma HeaderStays(data: seq<byte>, header: seq<byte>, rest: seq<byte>)
    requires |header| == 16
    ensures var after := Overwrite(Overwrite(data, 0, header), 0x100, rest);
      |after| >= 16 && after[..16] == header
  {
  }

  /** Whatever the store held: four big-endian numbers, for where the data starts, where it
      ends, how long it is, and the length of the map that is the trailer. */
  lemma FinishedFields(data: seq<byte>, dataEnd: nat, sizes: seq<nat>)
    requires 0x104 <= dataEnd
    ensures var fork := Finished(data, dataEnd, sizes);
      && |fork| >= 16
      && fork[..4] == BE32(0x100) && fork[4..8] == BE32(dataEnd)
      && fork[8..12] == BE32(dataEnd - 0x100) && fork[12..16] == BE32(0x32)
  {
    HeaderStays(Overwrite(data, dataEnd, ZlibTrailer()), Header(dataEnd), Preamble(sizes, dataEnd));
    FourFields(BE32(0x100), BE32(dataEnd), BE32(dataEnd - 0x100), BE32(0x32));
    PartsOf(Finished(data, dataEnd, sizes), Header(dataEnd));
  }

  method Finish(store: Store, sizes: seq<nat>) returns (r: Result<()>)
    modifies store
    ensures r.Ok? ==> old(CanFinish(store, sizes))
    ensures store.reliable && old(CanFinish(store, sizes)) ==> r.Ok?
    ensures r.Ok? ==> store.data == Finished(old(store.data), old(store.pos), sizes)
    ensures r.Ok? ==> store.pos == HeaderSize(|sizes|)
    ensures r.Ok? ==>
      && |store.data| >= 16
      && store.data[..4] == BE32(0x100) && store.data[4..8] == BE32(old(store.pos))
      && store.data[8..12] == BE32(old(store.pos) - 0x100) && store.data[12..16] == BE32(0x32)
  {
    if |sizes| >= U32_LIMIT || store.pos > U32_MAX {
      return Err(InvalidInput);
    }
    var dataEnd := store.pos;
    var _ :- store.WriteAll(ZlibTrailer());
    var _ :- store.SeekStart(0);
    if dataEnd < 0x100 {
      return Err(Panicked);
    }
    var _ :- store.WriteAll(Header(dataEnd));
    var _ :- store.SeekStart(0x100);
    if dataEnd < 0x104 {
      return Err(Panicked);
    }
    r := WritePreamble(store, sizes, dataEnd);
    FinishedFields(old(store.data), dataEnd, sizes);
  }

  /** A write over the first of the zeros between two byte strings. */
  lemma FillZeros(front: seq<byte>, n: nat, tail: seq<byte>, bytes: seq<byte>)
    requires |bytes| <= n
    ensures Overwrite(front + (Zeros(n) + tail), |front|, bytes) == front + bytes + (Zeros(n - |bytes|) + tail)
  {
    OverwriteMiddle(front, Zeros(n) + tail, bytes);
    assert (Zeros(n) + tail)[|bytes|..] == Zeros(n - |bytes|) + tail;
  }

  lemma ZerosSplit(a: nat, b: nat, tail: seq<byte>)
    ensures Zeros(a + b) + tail == Zeros(a) + (Zeros(b) + tail)
  {
  }

  /** Block data and trailer behind a hole of `h` bytes. */
  lemma FillBack(h: nat, body: seq<byte>, trailer: seq<byte>)
    requires trailer != []
    ensures Overwrite(Overwrite([], h, body), h + |body|, trailer) == Zeros(h) + (body + trailer)
  {
    OverwriteAppend([], h, body, trailer);
    OverwriteHole(h, body + trailer);
  }

  /** Filling a hole of `h` bytes from the front, skipping `gap` zeros, once the block
      data and trailer behind it are in place. */
  lemma BackFill(h: nat, tail: seq<byte>, header: seq<byte>, gap: nat, fields: seq<byte>, table: seq<byte>)
    requires |header| + gap + |fields| + |table| == h
    ensures Overwrite(Overwrite(Zeros(h) + tail, 0, header), |header| + gap, fields + table)
            == header + Zeros(gap) + fields + table + tail
  {
    var front := header + Zeros(gap);
    FillZeros([], h, tail, header);
    ZerosSplit(gap, |fields + table|, tail);
    ConcatAssociates(header, Zeros(gap), Zeros(|fields + table|) + tail);
    FillZeros(front, |fields + table|, tail, fields + table);
    ConcatAssociates(front, fields, table);
    assert [] + (Zeros(h) + tail) == Zeros(h) + tail;
    assert [] + header == header;
    assert Zeros(0) + tail == tail;
  }

  /** Back-filling the header of a fork whose hole and block data are in place yields the
      front-to-back layout: no block byte is overwritten and no hole byte is left over. */
  lemma FinishedIsLayout(sizes: seq<nat>, body: seq<byte>)
    ensures Finished(Overwrite([], HeaderSize(|sizes|), body), HeaderSize(|sizes|) + |body|, sizes) ==
      Layout(sizes, body)
  {
    var h := HeaderSize(|sizes|);
    FillBack(h, body, ZlibTrailer());
    BackFill(h, body + ZlibTrailer(), Header(h + |body|), 0xF0, Fields(|sizes|, h + |body|), Table(h - 0x104, sizes));
  }

  // ----- reading

  function EntryAt(data: seq<byte>, i: nat): BlockInfo
    requires HeaderSize(i + 1) <= |data|
  {
    var at := HeaderSize(i);
    BlockInfo(FromLE32(data[at..at + 4]) + ZLIB_BLOCK_TABLE_START, FromLE32(data[at + 4..at + 8]))
  }

  function Infos(data: seq<byte>, blockCount: nat): (infos: seq<BlockInfo>)
    requires HeaderSize(blockCount) <= |data|
  {
    seq(blockCount, i requires 0 <= i < blockCount => EntryAt(data, i))
  }

  /** The fixed fields in front of the table. */
  predicate PreludeAgrees(data: seq<byte>, dataEnd: nat, blockCount: nat)
    requires 0x104 <= dataEnd
  {
    && 0x108 <= |data|
    && data[..16] == Header(dataEnd)
    && data[16..0x100] == Zeros(0xF0)
    && data[0x100..0x104] == BE32(dataEnd - 0x104)
    && data[0x104..0x108] == LE32(blockCount)
  }

  /** The forks the parser accepts. Block offsets are only required to stay in 32 bits:
      order, overlap and gaps are not checked. */
  predicate WellFormed(data: seq<byte>, blockCount: nat) {
    && blockCount < U32_LIMIT
    && 0x104 + 50 <= |data| <= U32_MAX
    && HeaderSize(blockCount) <= |data|
    && PreludeAgrees(data, |data| - 50, blockCount)
    && (forall i :: 0 <= i < blockCount ==> EntryAt(data, i).offset <= U32_MAX)
    && data[|data| - 50..] == ZlibTrailer()
  }

  method ReadPrelude(store: Store, dataEnd: nat, blockCount: nat) returns (r: Result<()>)
    requires store.pos == 0 && dataEnd <= |store.data|
    modifies store`pos
    ensures r.Ok? ==> 0x104 <= dataEnd && PreludeAgrees(store.data, dataEnd, blockCount) && store.pos == 0x108
    ensures store.reliable && 0x104 <= dataEnd && PreludeAgrees(store.data, dataEnd, blockCount) ==> r.Ok?
  {
    var headerBuf :- store.ReadExact(16);
    if dataEnd < 0x100 {
      return Err(Panicked);
    }
    if headerBuf != Header(dataEnd) {
      return Err(InvalidData);
    }
    var zeros :- store.ReadExact(0xF0);
    if zeros != Zeros(0xF0) {
      return Err(InvalidData);
    }
    var buf :- store.ReadExact(4);
    if dataEnd < 0x104 {
      return Err(Panicked);
    }
    if buf != BE32(dataEnd - 0x104) {
      return Err(InvalidData);
    }
    buf :- store.ReadExact(4);
    if buf != LE32(blockCount) {
      return Err(InvalidData);
    }
    return Ok(());
  }

  method ReadTable(store: Store, blockCount: nat) returns (r: Result<seq<BlockInfo>>)
    requires store.pos == HeaderSize(0) <= |store.data|
    modifies store`pos
    ensures r.Ok? ==> HeaderSize(blockCount) <= |store.data| && r.value == Infos(store.data, blockCount)
    ensures r.Ok? ==> forall i :: 0 <= i < blockCount ==> EntryAt(store.data, i).offset <= U32_MAX
    ensures store.reliable && r.Err? && HeaderSize(blockCount) <= |store.data| ==>
              exists i :: 0 <= i < blockCount && EntryAt(store.data, i).offset > U32_MAX
  {
    var result: seq<BlockInfo> := [];
    for i := 0 to blockCount
      invariant HeaderSize(i) <= |store.data| && store.pos == HeaderSize(i)
      invariant |result| == i
      invariant forall j :: 0 <= j < i ==> result[j] == EntryAt(store.data, j) && result[j].offset <= U32_MAX
    {
      var entry :- store.ReadExact(8);
      assert entry[..4] == store.data[HeaderSize(i)..HeaderSize(i) + 4];
      assert entry[4..] == store.data[HeaderSize(i) + 4..HeaderSize(i) + 8];
      var info := BlockInfo(FromLE32(entry[..4]) + ZLIB_BLOCK_TABLE_START, FromLE32(entry[4..]));
      assert info == EntryAt(store.data, i);
      if info.offset > U32_MAX {
        return Err(Panicked);
      }
      result := result + [info];
    }
    return Ok(result);
  }

  method ReadBlockInfo(store: Store, origFileSize: nat) returns (r: Result<seq<BlockInfo>>)
    modifies store`pos
    ensures r.Ok? ==> WellFormed(store.data, NumBlocks(origFileSize))
    ensures store.reliable && WellFormed(store.data, NumBlocks(origFileSize)) ==> r.Ok?
    ensures r.Ok? ==> r.value == Infos(store.data, NumBlocks(origFileSize))
  {
    var blockCount := NumBlocks(origFileSize);
    if blockCount >= U32_LIMIT {
      return Err(Panicked);
    }
    var totalSize :- store.SeekEnd();
    if totalSize > U32_MAX {
      return Err(InvalidInput);
    }
    if totalSize < 50 {
      return Err(Panicked);
    }
    var dataEnd := totalSize - 50;
    var _ :- store.SeekStart(0);
    var _ :- ReadPrelude(store, dataEnd, blockCount);
    var result :- ReadTable(store, blockCount);
    var _ :- ReadTrailer(store, dataEnd);
    return Ok(result);
  }

  method ReadTrailer(store: Store, dataEnd: nat) returns (r: Result<()>)
    requires dataEnd + 50 == |store.data| <= U32_MAX
    modifies store`pos
    ensures r.Ok? ==> store.data[dataEnd..] == ZlibTrailer()
    ensures store.reliable && store.data[dataEnd..] == ZlibTrailer() ==> r.Ok?
  {
    var _ :- store.SeekStart(dataEnd);
    var trailer :- store.ReadExact(50);
    assert store.data[dataEnd..dataEnd + 50] == store.data[dataEnd..];
    return if trailer != ZlibTrailer() then Err(InvalidData) else Ok(());
  }

  lemma HeaderIsItsFields(data: seq<byte>, dataEnd: nat)
    requires 0x100 <= dataEnd && |data| >= 16
    ensures data[..16] == Header(dataEnd) <==>
      && data[..4] == BE32(0x100) && data[4..8] == BE32(dataEnd)
      && data[8..12] == BE32(dataEnd - 0x100) && data[12..16] == BE32(0x32)
  {
    FourFields(BE32(0x100), BE32(dataEnd), BE32(dataEnd - 0x100), BE32(0x32));
    if data[..16] == Header(dataEnd) {
      PartsOf(data, Header(dataEnd));
    }
    assert data[..16] == data[..4] + data[4..8] + data[8..12] + data[12..16];
  }

  lemma EntriesAreBytes(data: seq<byte>, n: nat)
    requires 0x108 + 8 * n <= |data|
    ensures forall i :: 0 <= i < n ==>
      EntryAt(data, i) == BlockInfo(
        FromLE32(data[0x108 + 8 * i..0x10C + 8 * i]) + 0x104, FromLE32(data[0x10C + 8 * i..0x110 + 8 * i]))
  {
    forall i | 0 <= i < n
      ensures EntryAt(data, i) == BlockInfo(
        FromLE32(data[0x108 + 8 * i..0x10C + 8 * i]) + 0x104, FromLE32(data[0x10C + 8 * i..0x110 + 8 * i]))
    {
      assert HeaderSize(i) == 0x108 + 8 * i;
    }
  }

  lemma OffsetsInRange(data: seq<byte>, n: nat)
    requires 0x108 + 8 * n <= |data|
    ensures (forall i :: 0 <= i < n ==> EntryAt(data, i).offset <= U32_MAX) <==>
      (forall i :: 0 <= i < n ==> FromLE32(data[0x108 + 8 * i..0x10C + 8 * i]) + 0x104 <= U32_MAX)
  {
    EntriesAreBytes(data, n);
    if forall i :: 0 <= i < n ==> FromLE32(data[0x108 + 8 * i..0x10C + 8 * i]) + 0x104 <= U32_MAX {
      forall i | 0 <= i < n ensures EntryAt(data, i).offset <= U32_MAX {
        assert FromLE32(data[0x108 + 8 * i..0x10C + 8 * i]) + 0x104 <= U32_MAX;
      }
    }
    if forall i :: 0 <= i < n ==> EntryAt(data, i).offset <= U32_MAX {
      forall i | 0 <= i < n ensures FromLE32(data[0x108 + 8 * i..0x10C + 8 * i]) + 0x104 <= U32_MAX {
        assert EntryAt(data, i).offset <= U32_MAX;
      }
    }
  }

  /** What the parser accepts, byte by byte: a frame as the writer leaves it for a fork of this
      length and this many blocks, around any table whose offsets stay within 32 bits. */
  lemma AcceptedBytes(data: seq<byte>, n: nat)
    requires n < U32_LIMIT
    ensures WellFormed(data, n) <==>
      && 0x104 + 50 <= |data| <= U32_MAX && 0x108 + 8 * n <= |data|
      && data[..4] == BE32(0x100) && data[4..8] == BE32(|data| - 50)
      && data[8..12] == BE32(|data| - 50 - 0x100) && data[12..16] == BE32(0x32)
      && data[16..0x100] == Zeros(0xF0)
      && data[0x100..0x104] == BE32(|data| - 50 - 0x104) && data[0x104..0x108] == LE32(n)
      && (forall i :: 0 <= i < n ==> FromLE32(data[0x108 + 8 * i..0x10C + 8 * i]) + 0x104 <= U32_MAX)
      && data[|data| - 50..] == ZlibTrailer()
    ensures WellFormed(data, n) ==> |Infos(data, n)| == n && forall i :: 0 <= i < n ==>
      Infos(data, n)[i] == BlockInfo(
        FromLE32(data[0x108 + 8 * i..0x10C + 8 * i]) + 0x104, FromLE32(data[0x10C + 8 * i..0x110 + 8 * i]))
  {
    if 0x104 + 50 <= |data| <= U32_MAX {
      HeaderIsItsFields(data, |data| - 50);
      if 0x108 + 8 * n <= |data| {
        EntriesAreBytes(data, n);
        OffsetsInRange(data, n);
      }
    }
  }

  // ----- the two agree

  lemma {:induction false} TableAt(offset: nat, sizes: seq<nat>, i: nat)
    requires i < |sizes|
    ensures Table(offset, sizes)[8 * i..8 * i + 4] == LE32(offset + Sum(sizes[..i]))
    ensures Table(offset, sizes)[8 * i + 4..8 * i + 8] == LE32(sizes[i])
    decreases i
  {
    var rest := Table(offset + sizes[0], sizes[1..]);
    FirstEntry(LE32(offset), LE32(sizes[0]), rest, 8 * i);
    if i == 0 {
    } else {
      TableAt(offset + sizes[0], sizes[1..], i - 1);
      assert sizes[1..][..i - 1] == sizes[..i][1..];
    }
  }

  lemma FirstEntry(a: seq<byte>, b: seq<byte>, rest: seq<byte>, at: nat)
    requires |a| == |b| == 4
    ensures (a + b + rest)[..4] == a && (a + b + rest)[4..8] == b
    ensures 8 <= at <= |rest| ==>
      && (a + b + rest)[at..at + 4] == rest[at - 8..at - 4]
      && (a + b + rest)[at + 4..at + 8] == rest[at - 4..at]
  {
  }

  /** An entry of a table embedded after the 0x108 leading bytes. */
  lemma EntryInTable(before: seq<byte>, table: seq<byte>, after: seq<byte>, i: nat, offset: nat, size: nat)
    requires |before| == 0x108 && 8 * i + 8 <= |table|
    requires offset < U32_LIMIT && size < U32_LIMIT
    requires table[8 * i..8 * i + 4] == LE32(offset)
    requires table[8 * i + 4..8 * i + 8] == LE32(size)
    ensures EntryAt(before + table + after, i) == BlockInfo(offset + 0x104, size)
  {
    SliceOfMiddle(before, table, after, 8 * i, 8 * i + 4);
    SliceOfMiddle(before, table, after, 8 * i + 4, 8 * i + 8);
    LE32RoundTrip(offset);
    LE32RoundTrip(size);
  }

  lemma SliceOfMiddle(before: seq<byte>, middle: seq<byte>, after: seq<byte>, i: nat, j: nat)
    requires i <= j <= |middle|
    ensures (before + middle + after)[|before| + i..|before| + j] == middle[i..j]
  {
  }

  lemma TableInFork(before: seq<byte>, offset: nat, sizes: seq<nat>, after: seq<byte>, i: nat)
    requires |before| == 0x108 && i < |sizes| && offset + Sum(sizes) < U32_LIMIT
    ensures EntryAt(before + Table(offset, sizes) + after, i) == BlockInfo(0x104 + offset + Sum(sizes[..i]), sizes[i])
    ensures Sum(sizes[..i]) + sizes[i] <= Sum(sizes)
  {
    SumPrefix(sizes, i);
    TableAt(offset, sizes, i);
    EntryInTable(before, Table(offset, sizes), after, i, offset + Sum(sizes[..i]), sizes[i]);
  }

  lemma LayoutParts(sizes: seq<nat>, body: seq<byte>) returns (leading: seq<byte>, tail: seq<byte>)
    ensures |leading| == 0x108 && |tail| == |body| + 50
    ensures Layout(sizes, body) == leading + Table(HeaderSize(|sizes|) - 0x104, sizes) + tail
  {
    leading, tail := Leading(|sizes|, HeaderSize(|sizes|) + |body|), body + ZlibTrailer();
  }

  lemma EntryInFork(fork: seq<byte>, leading: seq<byte>, sizes: seq<nat>, tail: seq<byte>, i: nat)
    requires i < |sizes| && |leading| == 0x108 && HeaderSize(|sizes|) + Sum(sizes) <= U32_MAX
    requires fork == leading + Table(HeaderSize(|sizes|) - 0x104, sizes) + tail
    ensures HeaderSize(i + 1) <= |fork|
    ensures EntryAt(fork, i) == BlockInfo(HeaderSize(|sizes|) + Sum(sizes[..i]), sizes[i])
    ensures EntryAt(fork, i).offset <= U32_MAX
  {
    TableInFork(leading, HeaderSize(|sizes|) - 0x104, sizes, tail, i);
  }

  lemma LeadingFields(
      header: seq<byte>, zeros: seq<byte>, size: seq<byte>, count: seq<byte>, rest: seq<byte>, fork: seq<byte>)
    requires |header| == 16 && |zeros| == 0xF0 && |size| == 4 && |count| == 4
    requires fork == header + zeros + (size + count) + rest
    ensures fork[..16] == header && fork[16..0x100] == zeros
    ensures fork[0x100..0x104] == size && fork[0x104..0x108] == count
  {
  }

  lemma LayoutFields(sizes: seq<nat>, body: seq<byte>)
    ensures PreludeAgrees(Layout(sizes, body), HeaderSize(|sizes|) + |body|, |sizes|)
    ensures Layout(sizes, body)[HeaderSize(|sizes|) + |body|..] == ZlibTrailer()
  {
    var dataEnd := HeaderSize(|sizes|) + |body|;
    var table, tail := Table(HeaderSize(|sizes|) - 0x104, sizes), body + ZlibTrailer();
    ConcatAssociates(Leading(|sizes|, dataEnd), table, tail);
    var size, count := BE32(dataEnd - 0x104), LE32(|sizes|);
    LeadingFields(Header(dataEnd), Zeros(0xF0), size, count, table + tail, Layout(sizes, body));
  }

  /** Where everything is in a finished fork, byte by byte: the header's four numbers, zeros up
      to 0x100, the length of what follows and the number of blocks; the trailer at the end. */
  lemma LayoutBytes(sizes: seq<nat>, body: seq<byte>)
    ensures var fork, n := Layout(sizes, body), |sizes|;
      && |fork| == 0x108 + 8 * n + |body| + 50
      && fork[..4] == BE32(0x100) && fork[4..8] == BE32(|fork| - 50)
      && fork[8..12] == BE32(|fork| - 50 - 0x100) && fork[12..16] == BE32(0x32)
      && fork[16..0x100] == Zeros(0xF0)
      && fork[0x100..0x104] == BE32(|fork| - 50 - 0x104) && fork[0x104..0x108] == LE32(n)
      && fork[|fork| - 50..] == ZlibTrailer()
  {
    LayoutFields(sizes, body);
    var dataEnd := HeaderSize(|sizes|) + |body|;
    FourFields(BE32(0x100), BE32(dataEnd), BE32(dataEnd - 0x100), BE32(0x32));
    PartsOf(Layout(sizes, body), Header(dataEnd));
  }

  lemma EntrySlices(fork: seq<byte>, leading: seq<byte>, table: seq<byte>, tail: seq<byte>, i: nat)
    requires |leading| == 0x108 && fork == leading + table + tail && 8 * i + 8 <= |table|
    ensures |fork| >= 0x110 + 8 * i
    ensures fork[0x108 + 8 * i..0x10C + 8 * i] == table[8 * i..8 * i + 4]
    ensures fork[0x10C + 8 * i..0x110 + 8 * i] == table[8 * i + 4..8 * i + 8]
  {
    SliceOfMiddle(leading, table, tail, 8 * i, 8 * i + 4);
    SliceOfMiddle(leading, table, tail, 8 * i + 4, 8 * i + 8);
  }

  /** And the table from 0x108 on: for each block its offset, counted from 0x104, and size. */
  lemma LayoutEntry(sizes: seq<nat>, body: seq<byte>, i: nat)
    requires i < |sizes|
    ensures var fork := Layout(sizes, body);
      && |fork| >= 0x110 + 8 * i
      && fork[0x108 + 8 * i..0x10C + 8 * i] == LE32(4 + 8 * |sizes| + Sum(sizes[..i]))
      && fork[0x10C + 8 * i..0x110 + 8 * i] == LE32(sizes[i])
  {
    var leading, tail := LayoutParts(sizes, body);
    var start := HeaderSize(|sizes|) - 0x104;
    TableAt(start, sizes, i);
    EntrySlices(Layout(sizes, body), leading, Table(start, sizes), tail, i);
  }

  /** A fork with the right fields and trailer around a table is parsed back into it. */
  lemma ForkParses(fork: seq<byte>, leading: seq<byte>, sizes: seq<nat>, tail: seq<byte>)
    requires |leading| == 0x108 && HeaderSize(|sizes|) + Sum(sizes) + 50 == |fork| <= U32_MAX
    requires fork == leading + Table(HeaderSize(|sizes|) - 0x104, sizes) + tail
    requires PreludeAgrees(fork, |fork| - 50, |sizes|) && fork[|fork| - 50..] == ZlibTrailer()
    ensures WellFormed(fork, |sizes|)
    ensures Infos(fork, |sizes|) == BlockPositions(HeaderSize(|sizes|), sizes)
  {
    TableParses(fork, leading, sizes, tail);
  }

  lemma EntryIsPosition(
      fork: seq<byte>, leading: seq<byte>, sizes: seq<nat>, tail: seq<byte>, infos: seq<BlockInfo>, i: nat)
    requires |leading| == 0x108 && HeaderSize(|sizes|) + Sum(sizes) <= U32_MAX
    requires fork == leading + Table(HeaderSize(|sizes|) - 0x104, sizes) + tail
    requires infos == BlockPositions(HeaderSize(|sizes|), sizes) && i < |sizes|
    ensures HeaderSize(i + 1) <= |fork| && i < |infos|
    ensures EntryAt(fork, i) == infos[i] && infos[i].offset <= U32_MAX
  {
    EntryInFork(fork, leading, sizes, tail, i);
  }

  lemma TableParses(fork: seq<byte>, leading: seq<byte>, sizes: seq<nat>, tail: seq<byte>)
    requires |leading| == 0x108 && HeaderSize(|sizes|) + Sum(sizes) <= U32_MAX
    requires fork == leading + Table(HeaderSize(|sizes|) - 0x104, sizes) + tail
    ensures HeaderSize(|sizes|) <= |fork|
    ensures Infos(fork, |sizes|) == BlockPositions(HeaderSize(|sizes|), sizes)
    ensures forall i :: 0 <= i < |sizes| ==> EntryAt(fork, i).offset <= U32_MAX
  {
    var infos := BlockPositions(HeaderSize(|sizes|), sizes);
    assert HeaderSize(|sizes|) <= |fork|;
    forall i: nat | i < |sizes| ensures EntryAt(fork, i) == infos[i] && infos[i].offset <= U32_MAX {
      EntryIsPosition(fork, leading, sizes, tail, infos, i);
    }
    EntriesAre(fork, infos);
  }

  lemma EntriesAre(fork: seq<byte>, infos: seq<BlockInfo>)
    requires HeaderSize(|infos|) <= |fork|
    requires forall i :: 0 <= i < |infos| ==> EntryAt(fork, i) == infos[i] && infos[i].offset <= U32_MAX
    ensures Infos(fork, |infos|) == infos
    ensures forall i :: 0 <= i < |infos| ==> EntryAt(fork, i).offset <= U32_MAX
  {
  }

  /** The parser accepts every layout that fits in 32 bits and reports each block where it is. */
  lemma LayoutParses(sizes: seq<nat>, body: seq<byte>)
    requires |body| == Sum(sizes) && |Layout(sizes, body)| <= U32_MAX
    ensures WellFormed(Layout(sizes, body), |sizes|)
    ensures Infos(Layout(sizes, body), |sizes|) == BlockPositions(HeaderSize(|sizes|), sizes)
  {
    LayoutFields(sizes, body);
    var leading, tail := LayoutParts(sizes, body);
    ForkParses(Layout(sizes, body), leading, sizes, tail);
  }

  /** Block `i` lies where its table entry says. */
  lemma LayoutData(sizes: seq<nat>, body: seq<byte>, offset: nat, size: nat)
    requires offset + size <= |body|
    ensures Layout(sizes, body)[HeaderSize(|sizes|) + offset..HeaderSize(|sizes|) + offset + size] ==
      body[offset..offset + size]
  {
    var before := Leading(|sizes|, HeaderSize(|sizes|) + |body|) + Table(HeaderSize(|sizes|) - 0x104, sizes);
    ConcatAssociates(before, body, ZlibTrailer());
    SliceOfMiddle(before, body, ZlibTrailer(), offset, offset + size);
  }
}
