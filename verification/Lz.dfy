/** The LZVN and LZFSE resource-fork layout: n+1 little-endian offsets, then the blocks. */
module LzFormat {
  import opened Bytes
  import opened Wrappers
  import opened Decmpfs
  import opened SeekableStore

  function HeaderSize(blockCount: nat): nat {
    (blockCount + 1) * 4
  }

  /** The offset of every block, and of the end of the last one. */
  function Table(offset: nat, sizes: seq<nat>): (t: seq<byte>)
    ensures |t| == HeaderSize(|sizes|)
    decreases |sizes|
  {
    if sizes == [] then LE32(offset)
    else LE32(offset) + Table(offset + sizes[0], sizes[1..])
  }

  /** A fork whose block data is `body`, cut into blocks of the given sizes. */
  function Layout(sizes: seq<nat>, body: seq<byte>): (fork: seq<byte>)
    ensures |fork| == HeaderSize(|sizes|) + |body|
  {
    Table(HeaderSize(|sizes|), sizes) + body
  }

  // ----- writing

  predicate CanFinish(writeLimit: nat, sizes: seq<nat>) {
    && HeaderSize(|sizes|) + Sum(sizes) <= U32_MAX
    && HeaderSize(|sizes|) <= writeLimit
  }

  function Finished(data: seq<byte>, sizes: seq<nat>): seq<byte> {
    Overwrite(data, 0, Table(HeaderSize(|sizes|), sizes))
  }

  /** Writing one offset leaves the rest of the table to be written. */
  lemma TableStep(data: seq<byte>, pos: nat, offset: nat, sizes: seq<nat>, i: nat)
    requires i < |sizes|
    ensures Overwrite(Overwrite(data, pos, LE32(offset)), pos + 4, Table(offset + sizes[i], sizes[i + 1..]))
            == Overwrite(data, pos, Table(offset, sizes[i..]))
    ensures Sum(sizes[i..]) == sizes[i] + Sum(sizes[i + 1..])
  {
    assert sizes[i..][1..] == sizes[i + 1..];
    assert Table(offset, sizes[i..]) == LE32(offset) + Table(offset + sizes[i], sizes[i + 1..]);
    OverwriteAppend(data, pos, LE32(offset), Table(offset + sizes[i], sizes[i + 1..]));
  }

  /** One turn of the table loop: an offset, and the next one. */
  method WriteOffset(store: Store, offset: nat, sizes: seq<nat>, i: nat) returns (r: Result<nat>)
    requires i < |sizes|
    modifies store
    ensures r.Ok? ==> r.value == offset + sizes[i] <= U32_MAX
    ensures store.reliable && offset + sizes[i] <= U32_MAX && old(store.pos) + 4 <= store.writeLimit ==> r.Ok?
    ensures r.Ok? ==>
      && store.pos == old(store.pos) + 4
      && Overwrite(store.data, store.pos, Table(r.value, sizes[i + 1..]))
         == Overwrite(old(store.data), old(store.pos), Table(offset, sizes[i..]))
    ensures Sum(sizes[i..]) == sizes[i] + Sum(sizes[i + 1..])
  {
    TableStep(store.data, store.pos, offset, sizes, i);
    var next := offset + sizes[i];
    var _ :- store.WriteAll(LE32(offset));
    return if next > U32_MAX then Err(Other) else Ok(next);
  }

  /** The table loop, failing once an offset leaves 32 bits. */
  method WriteTable(store: Store, start: nat, sizes: seq<nat>) returns (r: Result<()>)
    requires start <= U32_MAX && store.pos == 0
    modifies store
    ensures r.Ok? ==> start + Sum(sizes) <= U32_MAX && HeaderSize(|sizes|) <= store.writeLimit
    ensures store.reliable && start + Sum(sizes) <= U32_MAX && HeaderSize(|sizes|) <= store.writeLimit ==> r.Ok?
    ensures r.Ok? ==>
      store.data == Overwrite(old(store.data), 0, Table(start, sizes)) && store.pos == HeaderSize(|sizes|)
  {
    var offset: nat := start;
    assert sizes[0..] == sizes;
    for i := 0 to |sizes|
      invariant store.pos == 4 * i
      invariant Overwrite(store.data, store.pos, Table(offset, sizes[i..])) ==
        Overwrite(old(store.data), 0, Table(start, sizes))
      invariant offset + Sum(sizes[i..]) == start + Sum(sizes)
      invariant offset <= U32_MAX
    {
      offset :- WriteOffset(store, offset, sizes, i);
    }
    assert Table(offset, sizes[|sizes|..]) == LE32(offset);
    var _ :- store.WriteAll(LE32(offset));
    return Ok(());
  }

  method Finish(store: Store, sizes: seq<nat>) returns (r: Result<()>)
    modifies store
    ensures r.Ok? ==> CanFinish(store.writeLimit, sizes)
    ensures store.reliable && CanFinish(store.writeLimit, sizes) ==> r.Ok?
    ensures r.Ok? ==> store.data == Finished(old(store.data), sizes) && store.pos == HeaderSize(|sizes|)
  {
    if HeaderSize(|sizes|) > U32_MAX {
      return Err(Panicked);
    }
    var _ :- store.SeekStart(0);
    r := WriteTable(store, HeaderSize(|sizes|), sizes);
  }

  lemma FillHeader(table: seq<byte>, body: seq<byte>)
    ensures Overwrite(Overwrite([], |table|, body), 0, table) == table + body
  {
    if body == [] {
      assert body + body == body;
      OverwriteMiddle(body, body, table);
    } else {
      OverwriteHole(|table|, body);
      assert [] + (Zeros(|table|) + body) == Zeros(|table|) + body;
      OverwriteMiddle([], Zeros(|table|) + body, table);
      assert (Zeros(|table|) + body)[|table|..] == body;
    }
  }

  /** Back-filling the table over the hole yields the front-to-back layout. */
  lemma FinishedIsLayout(sizes: seq<nat>, body: seq<byte>)
    ensures Finished(Overwrite([], HeaderSize(|sizes|), body), sizes) == Layout(sizes, body)
  {
    FillHeader(Table(HeaderSize(|sizes|), sizes), body);
  }

  // ----- reading

  function OffsetAt(data: seq<byte>, i: nat): (offset: nat)
    requires HeaderSize(i) <= |data|
    ensures offset <= U32_MAX
  {
    FromLE32(data[4 * i..4 * i + 4])
  }

  predicate Ordered(data: seq<byte>, blockCount: nat)
    requires HeaderSize(blockCount) <= |data|
  {
    forall i :: 0 <= i < blockCount ==> OffsetAt(data, i) <= OffsetAt(data, i + 1)
  }

  /** The gaps between consecutive offsets. */
  function Infos(data: seq<byte>, blockCount: nat): (infos: seq<BlockInfo>)
    requires HeaderSize(blockCount) <= |data| && Ordered(data, blockCount)
  {
    seq(blockCount, i requires 0 <= i < blockCount =>
      BlockInfo(OffsetAt(data, i), OffsetAt(data, i + 1) - OffsetAt(data, i)))
  }

  /** The forks the parser accepts. */
  predicate WellFormed(data: seq<byte>, blockCount: nat) {
    && HeaderSize(blockCount) <= U32_MAX
    && HeaderSize(blockCount) <= |data|
    && OffsetAt(data, 0) == HeaderSize(blockCount)
    && Ordered(data, blockCount)
    && OffsetAt(data, blockCount) == |data|
  }

  /** The loop over the remaining offsets. */
  method ReadTable(store: Store, blockCount: nat, first: nat) returns (r: Result<(seq<BlockInfo>, nat)>)
    requires store.pos == 4 <= |store.data| && first == OffsetAt(store.data, 0)
    modifies store`pos
    ensures r.Ok? ==> HeaderSize(blockCount) <= |store.data| && Ordered(store.data, blockCount)
    ensures store.reliable && HeaderSize(blockCount) <= |store.data| && Ordered(store.data, blockCount) ==> r.Ok?
    ensures r.Ok? ==> r.value == (Infos(store.data, blockCount), OffsetAt(store.data, blockCount))
  {
    var lastOffset := first;
    var result: seq<BlockInfo> := [];
    for i := 0 to blockCount
      invariant store.pos == HeaderSize(i) <= |store.data|
      invariant lastOffset == OffsetAt(store.data, i)
      invariant Ordered(store.data, i)
      invariant result == Infos(store.data, i)
    {
      var buf :- store.ReadExact(4);
      var nextOffset := FromLE32(buf);
      assert nextOffset == OffsetAt(store.data, i + 1);
      if nextOffset < lastOffset {
        return Err(Other);
      }
      result := result + [BlockInfo(lastOffset, nextOffset - lastOffset)];
      lastOffset := nextOffset;
    }
    return Ok((result, lastOffset));
  }

  method ReadBlockInfo(store: Store, origFileSize: nat) returns (r: Result<seq<BlockInfo>>)
    modifies store`pos
    ensures r.Ok? ==>
      WellFormed(store.data, NumBlocks(origFileSize)) && r.value == Infos(store.data, NumBlocks(origFileSize))
    ensures store.reliable && WellFormed(store.data, NumBlocks(origFileSize)) ==> r.Ok?
  {
    var _ :- store.SeekStart(0);
    var blockCount := NumBlocks(origFileSize);
    if HeaderSize(blockCount) > U32_MAX {
      return Err(Panicked);
    }
    var buf :- store.ReadExact(4);
    var first := FromLE32(buf);
    if first != HeaderSize(blockCount) {
      return Err(Other);
    }
    var table :- ReadTable(store, blockCount, first);
    var endPos :- store.SeekEnd();
    if endPos != table.1 {
      return Err(Other);
    }
    return Ok(table.0);
  }

  // ----- the two agree

  lemma {:induction false} TableAt(offset: nat, sizes: seq<nat>, i: nat)
    requires i <= |sizes|
    ensures Table(offset, sizes)[4 * i..4 * i + 4] == LE32(offset + Sum(sizes[..i]))
    decreases i
  {
    if i == 0 {
    } else {
      TableAt(offset + sizes[0], sizes[1..], i - 1);
      assert sizes[1..][..i - 1] == sizes[..i][1..];
      assert Table(offset, sizes)[4..] == Table(offset + sizes[0], sizes[1..]);
      assert Table(offset, sizes)[4 * i..4 * i + 4] == Table(offset, sizes)[4..][4 * (i - 1)..4 * (i - 1) + 4];
    }
  }

  lemma TableInFork(offset: nat, sizes: seq<nat>, after: seq<byte>, i: nat)
    requires i <= |sizes| && offset + Sum(sizes) <= U32_MAX
    ensures OffsetAt(Table(offset, sizes) + after, i) == offset + Sum(sizes[..i])
  {
    TableAt(offset, sizes, i);
    assert sizes == sizes[..i] + sizes[i..];
    SumAppend(sizes[..i], sizes[i..]);
    LE32RoundTrip(offset + Sum(sizes[..i]));
    assert (Table(offset, sizes) + after)[4 * i..4 * i + 4] == Table(offset, sizes)[4 * i..4 * i + 4];
  }

  /** A fork whose table holds the running sums of `sizes` parses to their positions. */
  lemma RunningSumsParse(data: seq<byte>, sizes: seq<nat>)
    requires HeaderSize(|sizes|) <= |data| <= U32_MAX
    requires |data| == HeaderSize(|sizes|) + Sum(sizes)
    requires forall i :: 0 <= i <= |sizes| ==> OffsetAt(data, i) == HeaderSize(|sizes|) + Sum(sizes[..i])
    ensures WellFormed(data, |sizes|)
    ensures Infos(data, |sizes|) == BlockPositions(HeaderSize(|sizes|), sizes)
  {
    assert sizes[..|sizes|] == sizes;
    forall i | 0 <= i < |sizes|
      ensures OffsetAt(data, i) + sizes[i] == OffsetAt(data, i + 1)
    {
      SumPrefix(sizes, i);
    }
    GapsParse(data, HeaderSize(|sizes|), sizes);
  }

  lemma GapsParse(data: seq<byte>, start: nat, sizes: seq<nat>)
    requires HeaderSize(|sizes|) <= |data|
    requires forall i :: 0 <= i < |sizes| ==> OffsetAt(data, i) + sizes[i] == OffsetAt(data, i + 1)
    requires forall i :: 0 <= i < |sizes| ==> OffsetAt(data, i) == start + Sum(sizes[..i])
    ensures Ordered(data, |sizes|) && Infos(data, |sizes|) == BlockPositions(start, sizes)
  {
  }

  /** The parser accepts every layout that fits in 32 bits and reports each block where it is. */
  lemma LayoutParses(sizes: seq<nat>, body: seq<byte>)
    requires |body| == Sum(sizes) && |Layout(sizes, body)| <= U32_MAX
    ensures WellFormed(Layout(sizes, body), |sizes|)
    ensures Infos(Layout(sizes, body), |sizes|) == BlockPositions(HeaderSize(|sizes|), sizes)
  {
    forall i | 0 <= i <= |sizes|
      ensures OffsetAt(Layout(sizes, body), i) == HeaderSize(|sizes|) + Sum(sizes[..i])
    {
      TableInFork(HeaderSize(|sizes|), sizes, body, i);
    }
    RunningSumsParse(Layout(sizes, body), sizes);
  }

  // ----- the parser accepts nothing else

  /** The sizes an accepted fork's table encodes. */
  function SizesOf(data: seq<byte>, blockCount: nat): (sizes: seq<nat>)
    requires HeaderSize(blockCount) <= |data| && Ordered(data, blockCount)
    ensures |sizes| == blockCount
  {
    seq(blockCount, i requires 0 <= i < blockCount => Infos(data, blockCount)[i].compressedSize)
  }

  lemma TableUnfolds(offset: nat, sizes: seq<nat>, i: nat)
    requires i < |sizes|
    ensures Table(offset, sizes[i..]) == LE32(offset) + Table(offset + sizes[i], sizes[i + 1..])
    ensures Sum(sizes[i..]) == sizes[i] + Sum(sizes[i + 1..])
  {
    assert sizes[i..][1..] == sizes[i + 1..];
  }

  /** Two pieces that lie side by side in the data. */
  lemma PiecesJoin(data: seq<byte>, head: seq<byte>, tail: seq<byte>, i: nat, j: nat, k: nat)
    requires i <= j <= k <= |data| && head == data[i..j] && tail == data[j..k]
    ensures head + tail == data[i..k]
  {
  }

  lemma {:induction false} SizesRebuildTable(data: seq<byte>, sizes: seq<nat>, i: nat)
    requires i <= |sizes| && HeaderSize(|sizes|) <= |data|
    requires forall k :: 0 <= k < |sizes| ==> OffsetAt(data, k) + sizes[k] == OffsetAt(data, k + 1)
    ensures OffsetAt(data, i) + Sum(sizes[i..]) == OffsetAt(data, |sizes|)
    ensures Table(OffsetAt(data, i), sizes[i..]) == data[4 * i..HeaderSize(|sizes|)]
    decreases |sizes| - i
  {
    FromLE32RoundTrip(data[4 * i..4 * i + 4]);
    if i == |sizes| {
    } else {
      SizesRebuildTable(data, sizes, i + 1);
      TableUnfolds(OffsetAt(data, i), sizes, i);
      var rest := Table(OffsetAt(data, i + 1), sizes[i + 1..]);
      PiecesJoin(data, LE32(OffsetAt(data, i)), rest, 4 * i, 4 * (i + 1), HeaderSize(|sizes|));
    }
  }

  predicate IsLayout(data: seq<byte>, blockCount: nat, sizes: seq<nat>, body: seq<byte>) {
    |sizes| == blockCount && |body| == Sum(sizes) && data == Layout(sizes, body)
  }

  /** Canonical form: a fork is accepted exactly when it is the layout of blocks that tile
      the region behind its header, and rewriting the table from the sizes the parser
      returned changes no byte. */
  lemma AcceptsExactlyLayouts(data: seq<byte>, blockCount: nat)
    ensures WellFormed(data, blockCount) <==>
            |data| <= U32_MAX && exists sizes, body :: IsLayout(data, blockCount, sizes, body)
    ensures WellFormed(data, blockCount) ==>
              var sizes := SizesOf(data, blockCount);
              && Infos(data, blockCount) == BlockPositions(HeaderSize(blockCount), sizes)
              && HeaderSize(blockCount) + Sum(sizes) == |data|
              && Finished(data, sizes) == data
  {
    if WellFormed(data, blockCount) {
      AcceptedIsLayout(data, blockCount);
      assert IsLayout(data, blockCount, SizesOf(data, blockCount), data[HeaderSize(blockCount)..]);
    }
    if |data| <= U32_MAX && exists sizes, body :: IsLayout(data, blockCount, sizes, body) {
      var sizes, body :| IsLayout(data, blockCount, sizes, body);
      LayoutParses(sizes, body);
    }
  }

  lemma AcceptedIsLayout(data: seq<byte>, blockCount: nat)
    requires WellFormed(data, blockCount)
    ensures var sizes := SizesOf(data, blockCount);
      && data == Layout(sizes, data[HeaderSize(blockCount)..])
      && HeaderSize(blockCount) + Sum(sizes) == |data|
      && Infos(data, blockCount) == BlockPositions(HeaderSize(blockCount), sizes)
      && Finished(data, sizes) == data
  {
    var sizes, h := SizesOf(data, blockCount), HeaderSize(blockCount);
    SizesRebuildTable(data, sizes, 0);
    assert sizes[0..] == sizes;
    assert data == data[..h] + data[h..];
    LayoutParses(sizes, data[h..]);
    assert [] + data == data;
    OverwriteMiddle([], data, data[..h]);
  }

  /** Where everything is in a finished fork: the offset of every block and of the end, each
      the header's length and the sizes before it, and behind them nothing but the data. */
  lemma LayoutBytes(sizes: seq<nat>, body: seq<byte>, i: nat)
    requires i <= |sizes|
    ensures var fork, n := Layout(sizes, body), |sizes|;
      && |fork| == 4 * (n + 1) + |body|
      && fork[4 * i..4 * i + 4] == LE32(4 * (n + 1) + Sum(sizes[..i]))
      && fork[4 * (n + 1)..] == body
  {
    TableAt(HeaderSize(|sizes|), sizes, i);
    FrontSlice(Table(HeaderSize(|sizes|), sizes), body, 4 * i, 4 * i + 4);
  }

  lemma FrontSlice(table: seq<byte>, body: seq<byte>, i: nat, j: nat)
    requires i <= j <= |table|
    ensures (table + body)[i..j] == table[i..j] && (table + body)[|table|..] == body
  {
  }

  /** Block `i` lies where its table entry says. */
  lemma LayoutData(sizes: seq<nat>, body: seq<byte>, offset: nat, size: nat)
    requires offset + size <= |body|
    ensures Layout(sizes, body)[HeaderSize(|sizes|) + offset..HeaderSize(|sizes|) + offset + size] ==
      body[offset..offset + size]
  {
  }
}
