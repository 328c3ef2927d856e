/** The seekable byte store that blocks are written to and read from: a resource fork
    (everything at or below 32 bits) or a scratch payload (writes bounded by its
    reservation, seeks free). */
module SeekableStore {
  import opened Bytes
  import opened Wrappers

  /** Byte `i` after `bytes` is written at `pos`: written bytes, then what was there
      before, then the zeros that fill a hole. */
  function ByteAfter(data: seq<byte>, pos: nat, bytes: seq<byte>, i: nat): byte {
    if pos <= i < pos + |bytes| then bytes[i - pos]
    else if i < |data| then data[i]
    else 0
  }

  /** What a store holds after `bytes` is written at `pos`. An empty write changes nothing. */
  function Overwrite(data: seq<byte>, pos: nat, bytes: seq<byte>): (r: seq<byte>)
    ensures |r| == if bytes == [] then |data| else Max(|data|, pos + |bytes|)
  {
    if bytes == [] then data
    else seq(Max(|data|, pos + |bytes|), i requires 0 <= i => ByteAfter(data, pos, bytes, i))
  }

  /** Two writes in a row at the moving position are one longer write. */
  lemma OverwriteAppend(data: seq<byte>, pos: nat, a: seq<byte>, b: seq<byte>)
    ensures Overwrite(Overwrite(data, pos, a), pos + |a|, b) == Overwrite(data, pos, a + b)
  {
    if a == [] {
      assert a + b == b;
    } else if b == [] {
      assert a + b == a;
    }
  }

  /** A write at a boundary inside the store keeps what precedes it and replaces as much
      of what follows as it is long. */
  lemma OverwriteMiddle(before: seq<byte>, after: seq<byte>, bytes: seq<byte>)
    ensures Overwrite(before + after, |before|, bytes) == before + bytes + after[Min(|bytes|, |after|)..]
  {
    if bytes == [] {
      assert before + bytes + after == before + after;
    }
  }

  /** A write past the end of an empty store. */
  lemma OverwriteHole(pos: nat, bytes: seq<byte>)
    requires bytes != []
    ensures Overwrite([], pos, bytes) == Zeros(pos) + bytes
  {
  }

  /** At most `size` bytes of `data` from `offset` on: what a bounded read to the end delivers. */
  function Window(data: seq<byte>, offset: nat, size: nat): (r: seq<byte>)
    ensures offset + size <= |data| ==> r == data[offset..offset + size]
    ensures |r| == if offset < |data| then Min(size, |data| - offset) else 0
  {
    data[Min(offset, |data|)..Min(offset + size, |data|)]
  }

  // Every store can be positioned anywhere a 32-bit offset reaches.
  type SeekLimit = n: nat | n >= U32_MAX witness U32_MAX

  class Store {
    var data: seq<byte>
    var pos: nat
    // The largest end offset a write may have.
    const writeLimit: nat
    // The largest position a seek may reach.
    const seekLimit: SeekLimit
    // An unreliable store may fail any operation.
    const reliable: bool

    constructor (writeLimit: nat, seekLimit: SeekLimit, reliable: bool)
      ensures data == [] && pos == 0
      ensures this.writeLimit == writeLimit && this.seekLimit == seekLimit && this.reliable == reliable
    {
      data, pos := [], 0;
      this.writeLimit, this.seekLimit, this.reliable := writeLimit, seekLimit, reliable;
    }

    /** A resource fork that already holds `data`, opened at its start. */
    constructor Holding(data: seq<byte>, reliable: bool)
      ensures this.data == data && pos == 0
      ensures writeLimit == seekLimit == U32_MAX && this.reliable == reliable
    {
      this.data, pos := data, 0;
      writeLimit, seekLimit := U32_MAX, U32_MAX;
      this.reliable := reliable;
    }

    predicate CanWrite(bytes: seq<byte>)
      reads this
    {
      bytes == [] || pos + |bytes| <= writeLimit
    }

    /** What is there after only a first part of a write at `from` has been done. */
    ghost predicate PartlyWritten(before: seq<byte>, from: nat, bytes: seq<byte>)
      reads this
    {
      exists n :: 0 <= n <= |bytes| && data == Overwrite(before, from, bytes[..n]) && pos == from + n
    }

    /** Any outcome the environment may impose on one operation. */
    method Fails() returns (fails: bool)
      ensures reliable ==> !fails
    {
      fails := *;
      fails := fails && !reliable;
    }

    /** All of the bytes, or after a failure any first part of them. */
    method WriteAll(bytes: seq<byte>) returns (r: Result<()>)
      modifies this
      ensures r.Ok? ==> old(CanWrite(bytes))
      ensures reliable && old(CanWrite(bytes)) ==> r.Ok?
      ensures r.Ok? ==> data == Overwrite(old(data), old(pos), bytes) && pos == old(pos) + |bytes|
      ensures r.Err? ==> PartlyWritten(old(data), old(pos), bytes)
    {
      var fails := Fails();
      if fails || !CanWrite(bytes) {
        var n: nat := *;
        n := Min(n, |bytes|);
        data := Overwrite(data, pos, bytes[..n]);
        pos := pos + n;
        return Err(Other);
      }
      data := Overwrite(data, pos, bytes);
      pos := pos + |bytes|;
      return Ok(());
    }

    method SeekStart(target: nat) returns (r: Result<()>)
      modifies this`pos
      ensures r.Ok? ==> target <= seekLimit
      ensures reliable && target <= seekLimit ==> r.Ok?
      ensures pos == if r.Ok? then target else old(pos)
    {
      var fails := Fails();
      if fails || target > seekLimit {
        return Err(InvalidInput);
      }
      pos := target;
      return Ok(());
    }

    method SeekEnd() returns (r: Result<nat>)
      modifies this`pos
      ensures r.Ok? ==> |data| <= seekLimit
      ensures reliable && |data| <= seekLimit ==> r.Ok?
      ensures r.Ok? ==> r.value == pos == |data|
      ensures r.Err? ==> pos == old(pos)
    {
      var fails := Fails();
      if fails || |data| > seekLimit {
        return Err(InvalidInput);
      }
      pos := |data|;
      return Ok(pos);
    }

    method SeekRelative(offset: int) returns (r: Result<()>)
      modifies this`pos
      ensures r.Ok? ==> 0 <= old(pos) + offset <= seekLimit
      ensures reliable && 0 <= old(pos) + offset <= seekLimit ==> r.Ok?
      ensures pos == if r.Ok? then old(pos) + offset else old(pos)
    {
      var fails := Fails();
      if fails || !(0 <= pos + offset <= seekLimit) {
        return Err(InvalidInput);
      }
      pos := pos + offset;
      return Ok(());
    }

    method ReadExact(n: nat) returns (r: Result<seq<byte>>)
      requires n > 0
      modifies this`pos
      ensures r.Ok? ==> old(pos) + n <= |data|
      ensures reliable && old(pos) + n <= |data| ==> r.Ok?
      ensures r.Ok? ==> r.value == data[old(pos)..old(pos) + n] && pos == old(pos) + n
    {
      var read, got := ReadToEnd(n);
      var _ :- read;
      return if |got| < n then Err(UnexpectedEof) else Ok(got);
    }

    /** Reads until `limit` bytes or the end of the store. A failure may come after any part
        of that has been delivered. */
    method ReadToEnd(limit: nat) returns (r: Result<()>, got: seq<byte>)
      modifies this`pos
      ensures reliable ==> r.Ok?
      ensures got <= Window(data, old(pos), limit) && pos == old(pos) + |got|
      ensures r.Ok? ==> got == Window(data, old(pos), limit)
    {
      got := Window(data, pos, limit);
      var fails := Fails();
      if fails {
        var n: nat := *;
        got := got[..Min(n, |got|)];
      }
      pos := pos + |got|;
      return if fails then Err(Other) else Ok(()), got;
    }
  }
}
