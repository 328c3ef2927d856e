/** Compressing and decompressing one block, with the stored-block fallback. The codecs
    themselves are foreign code: a value of type Codec stands for one, and Faithful says
    what is relied on. */
module BlockCodec {
  import opened Bytes
  import opened Wrappers
  import opened Decmpfs

  /** A codec: `encode` gives None when its output does not fit in `cap` bytes, `decode`
      when the input is not an encoding whose data fits in `cap` bytes. */
  datatype Codec = Codec(
    encode: (seq<byte>, nat) -> Option<seq<byte>>,
    decode: (seq<byte>, nat) -> Option<seq<byte>>)

  /** The byte that marks a block stored as it is, for the kinds that have one: for zlib no
      compression method, for LZVN the end-of-stream command. */
  function StoredPrefix(kind: Kind): Option<byte> {
    match kind
    case Zlib => Some(0xFF)
    case Lzvn => Some(0x06)
    case Lzfse => None
  }

  /** Encoding stays within its capacity, is never empty, never starts like a stored
      block, and is undone by decoding into more room than the original took. */
  ghost predicate Faithful(kind: Kind, codec: Codec) {
    forall src: seq<byte>, cap: nat :: Encodes(kind, codec, src, cap)
  }

  ghost predicate Encodes(kind: Kind, codec: Codec, src: seq<byte>, cap: nat) {
    match codec.encode(src, cap)
    case None => true
    case Some(out) =>
      && 0 < |out| <= cap
      && StoredPrefix(kind) != Some(out[0])
      && forall room: nat :: |src| < room ==> codec.decode(out, room) == Some(src)
  }

  /** The encoded form of a block when `room` bytes of output are available. */
  function Compressed(kind: Kind, codec: Codec, src: seq<byte>, room: nat): Result<seq<byte>> {
    var prefix := StoredPrefix(kind);
    match codec.encode(src, if prefix.Some? then |src| else room)
    case Some(out) => Ok(out)
    case None => if prefix.Some? then Ok([prefix.value] + src) else Err(WriteZero)
  }

  /** What becomes of `n` bytes decoded into `room`. The LZ decoders also fill the buffer when
      the data is longer than it, so a full buffer never counts as success for them: LZFSE
      reports an error, LZVN trips an assertion. */
  function DecodeFault(kind: Kind, n: nat, room: nat): Option<Error> {
    if n > room then Some(WriteZero)
    else match kind
      case Zlib => None
      case Lzvn => if n == room then Some(Panicked) else if n == 0 then Some(WriteZero) else None
      case Lzfse => if n == room || n == 0 then Some(WriteZero) else None
  }

  /** The data a stored or encoded block stands for, given `room` bytes to decode into. */
  function Decompressed(kind: Kind, codec: Codec, src: seq<byte>, room: nat): Result<seq<byte>> {
    if src == [] then Err(UnexpectedEof)
    else if StoredPrefix(kind) == Some(src[0]) then
      if room < |src| - 1 then Err(WriteZero) else Ok(src[1..])
    else match codec.decode(src, room)
      case None => Err(Other)
      case Some(data) =>
        var fault := DecodeFault(kind, |data|, room);
        if fault.Some? then Err(fault.value) else Ok(data)
  }

  method Compress(kind: Kind, codec: Codec, dst: array<byte>, src: seq<byte>) returns (r: Result<nat>)
    requires Faithful(kind, codec)
    requires dst.Length > |src|
    modifies dst
    ensures r.Ok? <==> Compressed(kind, codec, src, dst.Length).Ok?
    ensures r.Ok? ==> r.value <= dst.Length && dst[..r.value] == Compressed(kind, codec, src, dst.Length).value
    ensures r.Err? ==> r.error == Compressed(kind, codec, src, dst.Length).error
  {
    var prefix := StoredPrefix(kind);
    var cap := if prefix.Some? then |src| else dst.Length;
    assert Encodes(kind, codec, src, cap);
    match codec.encode(src, cap)
    case Some(out) =>
      forall i | 0 <= i < |out| {
        dst[i] := out[i];
      }
      return Ok(|out|);
    case None =>
      if prefix.None? {
        return Err(WriteZero);
      }
      dst[0] := prefix.value;
      forall i | 0 <= i < |src| {
        dst[1 + i] := src[i];
      }
      return Ok(|src| + 1);
  }

  method Decompress(kind: Kind, codec: Codec, dst: array<byte>, src: seq<byte>) returns (r: Result<nat>)
    modifies dst
    ensures r.Ok? <==> Decompressed(kind, codec, src, dst.Length).Ok?
    ensures r.Ok? ==> r.value <= dst.Length && dst[..r.value] == Decompressed(kind, codec, src, dst.Length).value
    ensures r.Err? ==> r.error == Decompressed(kind, codec, src, dst.Length).error
  {
    if src == [] {
      return Err(UnexpectedEof);
    }
    if StoredPrefix(kind) == Some(src[0]) {
      var stored := src[1..];
      if dst.Length < |stored| {
        return Err(WriteZero);
      }
      forall i | 0 <= i < |stored| {
        dst[i] := stored[i];
      }
      return Ok(|stored|);
    }
    match codec.decode(src, dst.Length)
    case None => return Err(Other);
    case Some(data) =>
      var fault := DecodeFault(kind, |data|, dst.Length);
      if fault.Some? {
        return Err(fault.value);
      }
      forall i | 0 <= i < |data| {
        dst[i] := data[i];
      }
      return Ok(|data|);
  }

  /** Whichever branch compressing took, decompressing into more room than the block's
      length gives the block back; kinds with a stored form never fail and add at most one
      byte. */
  lemma FallbackPreserves(kind: Kind, codec: Codec, src: seq<byte>, room: nat, room': nat)
    requires Faithful(kind, codec) && src != [] && |src| < room && |src| < room'
    ensures Compressed(kind, codec, src, room).Ok? ==>
      var out := Compressed(kind, codec, src, room).value;
      && 0 < |out| <= room
      && Decompressed(kind, codec, out, room') == Ok(src)
    ensures !kind.Lzfse? ==>
      Compressed(kind, codec, src, room).Ok? && |Compressed(kind, codec, src, room).value| <= |src| + 1
  {
    assert Encodes(kind, codec, src, if StoredPrefix(kind).Some? then |src| else room);
  }

  /** Compressing does compress: where the encoder makes a block no longer its output is taken,
      and only otherwise the marker is put before the block, 0xFF for zlib and 0x06 for LZVN.
      So the result is shorter than the block by as much as the encoder can make it. */
  lemma EncoderIsPreferred(kind: Kind, codec: Codec, src: seq<byte>, room: nat)
    requires Faithful(kind, codec) && src != [] && |src| < room && !kind.Lzfse?
    ensures Compressed(kind, codec, src, room).Ok?
    ensures var out, encoded := Compressed(kind, codec, src, room).value, codec.encode(src, |src|);
      && (|out| <= |src| <==> encoded.Some?)
      && (encoded.Some? ==> |out| <= |encoded.value| && codec.decode(out, |src| + 1) == Some(src))
      && (encoded.None? ==> |out| == |src| + 1 && out[0] == (if kind == Zlib then 0xFF else 0x06) && out[1..] == src)
  {
    assert Encodes(kind, codec, src, |src|);
  }

  /** LZFSE has no stored form: compressing succeeds exactly when the encoder does with all of
      the buffer, and takes what it gives. */
  lemma LzfseNeedsItsEncoder(codec: Codec, src: seq<byte>, room: nat)
    ensures Compressed(Lzfse, codec, src, room).Ok? <==> codec.encode(src, room).Some?
    ensures codec.encode(src, room).Some? ==> codec.encode(src, room) == Some(Compressed(Lzfse, codec, src, room).value)
    ensures codec.encode(src, room).None? ==> Compressed(Lzfse, codec, src, room) == Err(WriteZero)
  {
  }

  /** What stands behind a marker is taken as it is, if there is room; LZFSE knows no marker. */
  lemma StoredBlocks(codec: Codec, data: seq<byte>, b: byte, room: nat)
    ensures Decompressed(Zlib, codec, [0xFF] + data, room) == if |data| <= room then Ok(data) else Err(WriteZero)
    ensures Decompressed(Lzvn, codec, [0x06] + data, room) == if |data| <= room then Ok(data) else Err(WriteZero)
    ensures Decompressed(Lzfse, codec, [b] + data, room).Ok? ==> codec.decode([b] + data, room).Some?
  {
    assert ([0xFF] + data)[1..] == data && ([0x06] + data)[1..] == data;
  }

  /** Any other block is what the decoder makes of it, as long as that fits; of an LZ decoder
      neither nothing nor a full buffer is believed. */
  lemma DecoderIsBelieved(kind: Kind, codec: Codec, src: seq<byte>, room: nat, data: seq<byte>)
    requires src != [] && (kind == Zlib ==> src[0] != 0xFF) && (kind == Lzvn ==> src[0] != 0x06)
    ensures Decompressed(kind, codec, src, room) == Ok(data) <==>
      codec.decode(src, room) == Some(data) && |data| <= room && (kind != Zlib ==> 0 < |data| < room)
    ensures codec.decode(src, room).None? ==> Decompressed(kind, codec, src, room) == Err(Other)
    ensures Decompressed(kind, codec, [], room) == Err(UnexpectedEof)
  {
  }

  function Run(b: byte, n: nat): seq<byte> {
    seq(n, _ => b)
  }

  predicate IsRun(src: seq<byte>) {
    0 < |src| < U64_LIMIT && forall i :: 0 <= i < |src| ==> src[i] == src[0]
  }

  function DecodeRun(src: seq<byte>, room: nat): Option<seq<byte>> {
    if |src| == 10 && src[0] == 0x78 && FromLittleEndian(src[2..]) <= room then
      Some(Run(src[1], FromLittleEndian(src[2..])))
    else None
  }

  /** A run-length codec: shows that codecs meeting Faithful exist, and that both branches
      of compressing are taken. */
  function RunCodec(): Codec {
    Codec(
      (src: seq<byte>, cap: nat) =>
        if IsRun(src) && 10 <= cap then Some([0x78, src[0]] + LittleEndian(|src|, 8)) else None,
      (src: seq<byte>, room: nat) => DecodeRun(src, room))
  }

  /** Only decoding can panic, and only LZVN, in a buffer that is full. */
  lemma OnlyFullLzvnPanics(kind: Kind, codec: Codec, src: seq<byte>, room: nat)
    ensures Compressed(kind, codec, src, room) != Err(Panicked)
    ensures Decompressed(kind, codec, src, room) == Err(Panicked) <==>
      && kind.Lzvn? && src != [] && StoredPrefix(kind) != Some(src[0])
      && codec.decode(src, room).Some? && |codec.decode(src, room).value| == room
  {
  }

  lemma RunCodecIsFaithful(kind: Kind)
    ensures Faithful(kind, RunCodec())
  {
    forall src: seq<byte>, cap: nat
      ensures Encodes(kind, RunCodec(), src, cap)
    {
      if IsRun(src) && 10 <= cap {
        Widths();
        LittleEndianRoundTrip(|src|, 8);
        var out := [0x78, src[0]] + LittleEndian(|src|, 8);
        assert out[2..] == LittleEndian(|src|, 8);
        assert Run(src[0], |src|) == src;
      }
    }
  }

  /** How much room decompressing needs, exactly. A stored block needs its length. An encoded
      block of an LZ kind needs strictly more: a buffer that the data fills is a fault. For
      zlib more is enough, less never is, and exactly the length is what the codec makes it. */
  lemma RoomNeeded(kind: Kind, codec: Codec, src: seq<byte>, room: nat, room': nat)
    requires Faithful(kind, codec) && src != [] && |src| < room
    requires Compressed(kind, codec, src, room).Ok?
    ensures var out := Compressed(kind, codec, src, room).value;
      && out != []
      && (Decompressed(kind, codec, out, room') == Ok(src) <==>
          if StoredPrefix(kind) == Some(out[0]) then |src| <= room'
          else |src| < room' || (kind.Zlib? && |src| == room' && codec.decode(out, room') == Some(src)))
  {
    assert Encodes(kind, codec, src, if StoredPrefix(kind).Some? then |src| else room);
  }

  /** A run of twenty bytes, encoded by an LZ kind, does not come back from a buffer of twenty
      bytes: an error for LZFSE, a panic for LZVN. One more byte of room, or the stored form,
      and it does. */
  lemma ExactRoomFails(kind: Kind)
    requires !kind.Zlib?
    ensures var src := Run(7, 20);
      && Compressed(kind, RunCodec(), src, 21).Ok?
      && var out := Compressed(kind, RunCodec(), src, 21).value;
      && Decompressed(kind, RunCodec(), out, 20) == Err(if kind.Lzvn? then Panicked else WriteZero)
      && Decompressed(kind, RunCodec(), out, 21) == Ok(src)
      && (StoredPrefix(kind).Some? ==> Decompressed(kind, RunCodec(), [StoredPrefix(kind).value] + src, 20) == Ok(src))
  {
    RunCodecIsFaithful(kind);
    var src := Run(7, 20);
    assert IsRun(src);
    assert Encodes(kind, RunCodec(), src, if StoredPrefix(kind).Some? then 20 else 21);
    EncodedRun(7, 20);
  }

  /** A full block of one byte comes down to ten bytes, whatever the kind. */
  lemma RunIsCompressed(kind: Kind, b: byte)
    ensures var out := Compressed(kind, RunCodec(), Run(b, BLOCK_SIZE), BLOCK_SIZE + 1024);
      out == Ok([0x78, b] + LittleEndian(BLOCK_SIZE, 8)) && |out.value| == 10
  {
    assert IsRun(Run(b, BLOCK_SIZE));
  }

  /** What the run-length codec's decoder makes of an encoded run, whatever the room. */
  lemma EncodedRun(b: byte, n: nat)
    requires 0 < n < U64_LIMIT
    ensures forall room: nat ::
      DecodeRun([0x78, b] + LittleEndian(n, 8), room) == if n <= room then Some(Run(b, n)) else None
  {
    Widths();
    LittleEndianRoundTrip(n, 8);
    assert ([0x78, b] + LittleEndian(n, 8))[2..] == LittleEndian(n, 8);
  }
}
