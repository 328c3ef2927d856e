/** Byte streams whose environment chooses how much each call transfers and when it is
    interrupted or fails, and the loops that have to be right for every such choice. A
    script lists the choices for the next calls; once it runs out, calls transfer all
    they can. */
module Streams {
  import opened Bytes
  import opened Wrappers
  import SeekableStore

  datatype ReadEvent = ReadUpTo(n: nat) | ReadInterrupted | ReadFault

  datatype ReadOutcome = Got(bytes: seq<byte>) | GotInterrupted | GotError

  class Source {
    const content: seq<byte>
    var pos: nat
    var script: seq<ReadEvent>

    predicate Valid()
      reads this
    {
      pos <= |content|
    }

    predicate Calm()
      reads this
    {
      ReadFault !in script
    }

    constructor (content: seq<byte>, script: seq<ReadEvent>)
      ensures Valid() && this.content == content && pos == 0 && this.script == script
    {
      this.content, pos, this.script := content, 0, script;
    }

    /** One read call: zero bytes only at the end or for an empty buffer. */
    method Read(capacity: nat) returns (r: ReadOutcome)
      requires Valid()
      modifies this
      ensures Valid() && old(pos) <= pos
      ensures |script| <= |old(script)| && (old(Calm()) ==> Calm())
      ensures r.Got? ==> |r.bytes| <= capacity && pos == old(pos) + |r.bytes| && r.bytes == content[old(pos)..pos]
      ensures r.Got? ==> (r.bytes == [] <==> capacity == 0 || old(pos) == |content|)
      ensures r.GotInterrupted? ==> |script| < |old(script)| && pos == old(pos)
      ensures r.GotError? ==> !old(Calm()) && pos == old(pos)
    {
      var event := ReadUpTo(capacity);
      if script != [] {
        event, script := script[0], script[1..];
      }
      match event
      case ReadInterrupted => r := GotInterrupted;
      case ReadFault => r := GotError;
      case ReadUpTo(n) =>
        var bytes := SeekableStore.Window(content, pos, Min(capacity, Max(1, n)));
        pos := pos + |bytes|;
        r := Got(bytes);
    }
  }

  /** Places `bytes` in the buffer behind what is already there. */
  method Place(buffer: array<byte>, at: nat, bytes: seq<byte>)
    requires at + |bytes| <= buffer.Length
    modifies buffer
    ensures buffer[..at + |bytes|] == old(buffer[..at]) + bytes
  {
    forall i | 0 <= i < |bytes| {
      buffer[at + i] := bytes[i];
    }
  }

  /** Fills the buffer as far as the stream goes. */
  method TryReadAll(source: Source, buffer: array<byte>) returns (r: Result<nat>)
    requires source.Valid()
    modifies source, buffer
    ensures source.Valid() && old(source.pos) <= source.pos
    ensures old(source.Calm()) ==> r.Ok? && source.Calm()
    ensures r.Ok? ==> r.value == Min(buffer.Length, |source.content| - old(source.pos))
    ensures r.Ok? ==>
      source.pos == old(source.pos) + r.value && buffer[..r.value] == source.content[old(source.pos)..source.pos]
  {
    var filled: nat := 0;
    while true
      invariant source.Valid() && filled <= buffer.Length && (filled > 0 ==> filled < buffer.Length)
      invariant source.pos == old(source.pos) + filled
      invariant buffer[..filled] == source.content[old(source.pos)..source.pos]
      invariant old(source.Calm()) ==> source.Calm()
      decreases |source.script| + (|source.content| - source.pos), |source.script|
    {
      var outcome := source.Read(buffer.Length - filled);
      match outcome
      case GotInterrupted =>
        continue;
      case GotError =>
        return Err(Other);
      case Got(bytes) =>
        if bytes == [] {
          break;
        }
        Place(buffer, filled, bytes);
        assert source.content[old(source.pos)..source.pos]
            == source.content[old(source.pos)..source.pos - |bytes|] + bytes;
        filled := filled + |bytes|;
        if filled == buffer.Length {
          return Ok(filled);
        }
    }
    return Ok(filled);
  }

  datatype WriteEvent = WriteUpTo(n: nat) | WriteNothing | WriteInterrupted | WriteFault

  datatype WriteOutcome = Wrote(n: nat) | WriteWasInterrupted | WriteError

  class Sink {
    var received: seq<byte>
    var script: seq<WriteEvent>
    // The end offset beyond which a call is refused as a whole: 32 bits for a resource fork.
    const limit: Option<nat>

    predicate Calm()
      reads this
    {
      WriteFault !in script && WriteNothing !in script
    }

    predicate Room(n: nat)
      reads this
    {
      n == 0 || limit.None? || |received| + n <= limit.value
    }

    constructor (script: seq<WriteEvent>, limit: Option<nat>)
      ensures received == [] && this.script == script && this.limit == limit
    {
      received, this.script, this.limit := [], script, limit;
    }

    /** One write call: takes a prefix of what it is offered. */
    method Write(bytes: seq<byte>) returns (r: WriteOutcome)
      requires bytes != []
      modifies this
      ensures |script| <= |old(script)| && (old(Calm()) ==> Calm())
      ensures r.Wrote? ==> r.n <= |bytes| && received == old(received) + bytes[..r.n]
      ensures r.Wrote? && r.n == 0 ==> !old(Calm())
      ensures !r.Wrote? ==> received == old(received)
      ensures r.WriteWasInterrupted? ==> |script| < |old(script)|
      ensures r.Wrote? && r.n > 0 ==> old(Room(|bytes|))
      ensures r.WriteError? ==> !old(Calm()) || !old(Room(|bytes|))
    {
      if !Room(|bytes|) {
        return WriteError;
      }
      var event := WriteUpTo(|bytes|);
      if script != [] {
        event, script := script[0], script[1..];
      }
      match event
      case WriteInterrupted => r := WriteWasInterrupted;
      case WriteFault => r := WriteError;
      case WriteNothing =>
        assert bytes[..0] == [];
        r := Wrote(0);
      case WriteUpTo(n) =>
        var k := Min(|bytes|, Max(1, n));
        received := received + bytes[..k];
        r := Wrote(k);
    }

    method Flush() returns (r: Result<()>)
      modifies this`script
      ensures old(Calm()) ==> Calm() && r.Ok?
      ensures |script| <= |old(script)|
    {
      if script == [] {
        return Ok(());
      }
      var event := script[0];
      script := script[1..];
      return if event.WriteFault? then Err(Other) else Ok(());
    }
  }

  /** Writes one chunk in however many calls the destination needs, counting accepted bytes. */
  method WriteChunk(sink: Sink, bytes: seq<byte>) returns (r: Result<()>, accepted: nat)
    modifies sink
    ensures accepted <= |bytes| && sink.received == old(sink.received) + bytes[..accepted]
    ensures r.Ok? ==> accepted == |bytes| && old(sink.Room(|bytes|))
    ensures old(sink.Calm()) ==> sink.Calm() && (old(sink.Room(|bytes|)) ==> r.Ok?)
  {
    accepted := 0;
    while accepted < |bytes|
      invariant accepted <= |bytes| && sink.received == old(sink.received) + bytes[..accepted]
      invariant old(sink.Calm()) ==> sink.Calm()
      invariant accepted > 0 ==> old(sink.Room(|bytes|))
      decreases |sink.script| + (|bytes| - accepted)
    {
      var outcome := sink.Write(bytes[accepted..]);
      match outcome
      case WriteWasInterrupted =>
        continue;
      case WriteError =>
        return Err(Other), accepted;
      case Wrote(n) =>
        if n == 0 {
          return Err(WriteZero), accepted;
        }
        assert bytes[..accepted] + bytes[accepted..][..n] == bytes[..accepted + n];
        accepted := accepted + n;
    }
    return Ok(()), accepted;
  }

  lemma PrefixExtends(s: seq<byte>, i: nat, j: nat, k: nat)
    requires i <= j <= k <= |s|
    ensures s[i..k] == s[i..j] + s[j..k]
  {
  }

  /** One turn of the copying loop: a buffer filled and written out. */
  method CopyChunk(source: Source, sink: Sink, buffer: array<byte>) returns (r: Result<nat>, accepted: nat)
    requires source.Valid()
    modifies source, sink, buffer
    ensures source.Valid() && old(source.pos) + accepted <= |source.content|
    ensures sink.received == old(sink.received) + source.content[old(source.pos)..old(source.pos) + accepted]
    ensures r.Ok? ==>
      && r.value == accepted == Min(buffer.Length, |source.content| - old(source.pos))
      && source.pos == old(source.pos) + accepted && old(sink.Room(accepted))
    ensures old(source.Calm()) ==> source.Calm()
    ensures old(sink.Calm()) ==> sink.Calm()
    ensures old(source.Calm()) && old(sink.Calm()) && r.Err? ==>
      !old(sink.Room(Min(buffer.Length, |source.content| - source.pos)))
  {
    var read := TryReadAll(source, buffer);
    if read.Err? {
      return Err(read.error), 0;
    }
    ghost var start := old(source.pos);
    var bytes := buffer[..read.value];
    var written, taken := WriteChunk(sink, bytes);
    assert bytes[..taken] == source.content[start..start + taken];
    return if written.Err? then Err(written.error) else Ok(read.value), taken;
  }

  /** Copies a payload. Whatever happens, `progress` is exactly what the destination took,
      and that is a prefix of the source; on success it is all of the source, unless there
      is no room in the buffer to copy anything. */
  method CopyPayload(source: Source, sink: Sink, buffer: array<byte>) returns (r: Result<nat>, progress: nat)
    requires source.Valid()
    modifies source, sink, buffer
    ensures old(source.pos) + progress <= |source.content|
    ensures sink.received == old(sink.received) + source.content[old(source.pos)..old(source.pos) + progress]
    ensures r.Ok? ==> r.value == progress == if buffer.Length == 0 then 0 else |source.content| - old(source.pos)
    ensures r.Ok? ==> old(sink.Room(progress))
    ensures old(source.Calm()) && old(sink.Calm()) && old(sink.Room(|source.content| - source.pos)) ==> r.Ok?
  {
    progress := 0;
    ghost var start := source.pos;
    while true
      invariant source.Valid() && source.pos == start + progress
      invariant sink.received == old(sink.received) + source.content[start..source.pos]
      invariant buffer.Length == 0 ==> progress == 0
      invariant old(sink.Room(progress))
      invariant old(source.Calm()) ==> source.Calm()
      invariant old(sink.Calm()) ==> sink.Calm()
      decreases |source.content| - source.pos
    {
      ghost var before := source.pos;
      var copied, accepted := CopyChunk(source, sink, buffer);
      PrefixExtends(source.content, start, before, before + accepted);
      progress := progress + accepted;
      if copied.Err? {
        return copied, progress;
      }
      if copied.value == 0 {
        break;
      }
    }
    var flushed := sink.Flush();
    if flushed.Err? {
      return Err(flushed.error), progress;
    }
    return Ok(progress), progress;
  }

  // ----- comparing

  datatype FillEvent = Fill(n: nat) | FillFault

  /** A buffered reader: a call that finds its buffer empty refills it by any amount. */
  class BufferedSource {
    const content: seq<byte>
    var pos: nat
    var buffered: nat
    var script: seq<FillEvent>

    predicate Valid()
      reads this
    {
      pos + buffered <= |content|
    }

    predicate Calm()
      reads this
    {
      FillFault !in script
    }

    function Rest(): seq<byte>
      requires Valid()
      reads this
    {
      content[pos..]
    }

    constructor (content: seq<byte>, script: seq<FillEvent>)
      ensures Valid() && pos == 0 && Rest() == content && this.script == script
    {
      this.content, pos, buffered, this.script := content, 0, 0, script;
    }

    method FillBuf() returns (r: Result<seq<byte>>)
      requires Valid()
      modifies this`buffered, this`script
      ensures Valid() && (old(Calm()) ==> Calm() && r.Ok?)
      ensures r.Ok? ==> r.value <= Rest() && |r.value| == buffered && (r.value == [] <==> Rest() == [])
    {
      if buffered == 0 {
        var event := Fill(0x2000);
        if script != [] {
          event, script := script[0], script[1..];
        }
        if event.FillFault? {
          return Err(Other);
        }
        buffered := Min(Max(1, event.n), |content| - pos);
      }
      return Ok(content[pos..pos + buffered]);
    }

    method Consume(n: nat)
      requires Valid() && n <= buffered
      modifies this`pos, this`buffered
      ensures Valid() && Rest() == old(Rest())[n..] && buffered == old(buffered) - n
    {
      pos, buffered := pos + n, buffered - n;
    }
  }

  lemma SamePrefix(left: seq<byte>, right: seq<byte>, n: nat)
    requires n <= |left| && n <= |right| && left[..n] == right[..n]
    ensures left == right <==> left[n..] == right[n..]
  {
    assert left == left[..n] + left[n..] && right == right[..n] + right[n..];
  }

  /** Without I/O errors, Ok exactly for equal streams, wherever either side's buffers end. */
  method EnsureIdenticalFiles(lhs: BufferedSource, rhs: BufferedSource) returns (r: Result<()>)
    requires lhs.Valid() && rhs.Valid() && lhs != rhs
    modifies lhs, rhs
    ensures r.Ok? ==> old(lhs.Rest()) == old(rhs.Rest())
    ensures old(lhs.Calm()) && old(rhs.Calm()) && old(lhs.Rest()) == old(rhs.Rest()) ==> r.Ok?
  {
    while true
      invariant lhs.Valid() && rhs.Valid()
      invariant lhs.Rest() == rhs.Rest() <==> old(lhs.Rest()) == old(rhs.Rest())
      invariant old(lhs.Calm()) ==> lhs.Calm()
      invariant old(rhs.Calm()) ==> rhs.Calm()
      decreases |lhs.Rest()|
    {
      var l :- lhs.FillBuf();
      var m :- rhs.FillBuf();
      if l == [] && m == [] {
        return Ok(());
      }
      if l == [] || m == [] {
        return Err(UnexpectedEof);
      }
      var minLen := Min(|l|, |m|);
      ghost var left, right := lhs.Rest(), rhs.Rest();
      assert l[..minLen] == left[..minLen] && m[..minLen] == right[..minLen];
      if l[..minLen] != m[..minLen] {
        return Err(InvalidData);
      }
      SamePrefix(left, right, minLen);
      lhs.Consume(minLen);
      rhs.Consume(minLen);
    }
  }
}
