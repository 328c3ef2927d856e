/** Cutting a file into blocks, whatever sizes the reads come in. */
module Chunking {
  import opened Bytes
  import opened Wrappers
  import opened Decmpfs
  import opened Streams

  /** Consecutive full blocks, then what is left. */
  function Chunks(data: seq<byte>): (chunks: seq<seq<byte>>)
    decreases |data|
  {
    if data == [] then []
    else if |data| <= BLOCK_SIZE then [data]
    else [data[..BLOCK_SIZE]] + Chunks(data[BLOCK_SIZE..])
  }

  /** The chunks are the file: as many as its size calls for, in order, nothing lost, every
      one full but the last. */
  lemma {:induction false} ChunksTile(data: seq<byte>)
    ensures Flatten(Chunks(data)) == data && |Chunks(data)| == NumBlocks(|data|)
    ensures forall i :: 0 <= i < |Chunks(data)| ==>
      0 < |Chunks(data)[i]| <= BLOCK_SIZE && (i + 1 < |Chunks(data)| ==> |Chunks(data)[i]| == BLOCK_SIZE)
    decreases |data|
  {
    if data == [] {
    } else if |data| <= BLOCK_SIZE {
      assert [data][1..] == [];
      assert Flatten([data]) == data + Flatten([]);
    } else {
      var rest := data[BLOCK_SIZE..];
      ChunksTile(rest);
      assert Chunks(data)[1..] == Chunks(rest);
      assert data == data[..BLOCK_SIZE] + rest;
    }
  }

  /** The far end of the block queue: it hands out slots until it goes away, and keeps what
      the slots are completed with. */
  class ChunkReceiver {
    // The number of further slots it grants; None when it stays to the end.
    var slotsLeft: Option<nat>
    var chunks: seq<seq<byte>>

    constructor (slotsLeft: Option<nat>)
      ensures this.slotsLeft == slotsLeft && chunks == []
    {
      this.slotsLeft, chunks := slotsLeft, [];
    }

    method PrepareSend() returns (granted: bool)
      modifies this`slotsLeft
      ensures old(slotsLeft).None? ==> granted && slotsLeft.None?
      ensures slotsLeft.None? ==> old(slotsLeft).None?
      ensures !granted ==> old(slotsLeft) == Some(0)
    {
      match slotsLeft
      case None => granted := true;
      case Some(n) =>
        granted := n > 0;
        slotsLeft := Some(if n > 0 then n - 1 else 0);
    }

    method Complete(chunk: seq<byte>)
      modifies this`chunks
      ensures chunks == old(chunks) + [chunk]
    {
      chunks := chunks + [chunk];
    }
  }

  lemma NextChunk(content: seq<byte>, at: nat, n: nat, sent: seq<seq<byte>>, whole: seq<seq<byte>>)
    requires at < |content| && n == Min(BLOCK_SIZE, |content| - at)
    requires sent + Chunks(content[at..]) == whole
    ensures (sent + [content[at..at + n]]) + Chunks(content[at + n..]) == whole
  {
    var rest := content[at..];
    assert rest[..n] == content[at..at + n] && rest[n..] == content[at + n..];
    if |rest| <= BLOCK_SIZE {
      assert content[at..at + n] == rest && content[at + n..] == [];
    }
    assert Chunks(rest) == [rest[..n]] + Chunks(rest[n..]);
  }

  /** Reads a file of an expected length in blocks. The receiver always holds a prefix of
      the file's chunks. Ok(true) means all of them and the length as expected; Ok(false)
      that the receiver went away. */
  method WithFileChunks(file: Source, expectedLen: nat, tx: ChunkReceiver) returns (r: Result<bool>)
    requires file.Valid() && tx.chunks == []
    modifies file, tx
    ensures tx.chunks <= Chunks(file.content[old(file.pos)..])
    ensures r == Ok(true) ==>
      |file.content| - old(file.pos) == expectedLen && tx.chunks == Chunks(file.content[old(file.pos)..])
    ensures r == Ok(false) ==> old(tx.slotsLeft).Some?
    ensures old(file.Calm()) && old(tx.slotsLeft).None? ==>
      (r.Ok? <==> |file.content| - old(file.pos) == expectedLen)
  {
    ghost var start := file.pos;
    ghost var whole := Chunks(file.content[start..]);
    var totalRead: nat := 0;
    while true
      invariant file.Valid() && file.pos == start + totalRead && totalRead <= expectedLen
      invariant tx.chunks + Chunks(file.content[file.pos..]) == whole
      invariant tx.slotsLeft.None? <==> old(tx.slotsLeft).None?
      invariant old(file.Calm()) ==> file.Calm()
      decreases |file.content| - file.pos
    {
      if totalRead == expectedLen {
        var probe := new byte[1];
        var n :- TryReadAll(file, probe);
        totalRead := totalRead + n;
        break;
      }
      var granted := tx.PrepareSend();
      if !granted {
        return Ok(false);
      }
      var buf := new byte[BLOCK_SIZE];
      var n :- TryReadAll(file, buf);
      if n == 0 {
        break;
      }
      totalRead := totalRead + n;
      if totalRead > expectedLen {
        return Err(Other);
      }
      NextChunk(file.content, file.pos - n, n, tx.chunks, whole);
      tx.Complete(buf[..n]);
    }
    if totalRead != expectedLen {
      return Err(Other);
    }
    return Ok(true);
  }
}
