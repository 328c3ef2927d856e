/** The decmpfs extended attribute and the constants of the on-disk format. */
module Decmpfs {
  import opened Bytes
  import opened Wrappers

  const BLOCK_SIZE: nat := 0x10000
  const HEADER_LEN: nat := 16
  const MAX_XATTR_SIZE: nat := 3802
  const MAX_XATTR_DATA_SIZE: nat := MAX_XATTR_SIZE - HEADER_LEN
  const ZLIB_BLOCK_TABLE_START: nat := 0x104
  // The bytes of "fpmc".
  const MAGIC: seq<byte> := [0x66, 0x70, 0x6D, 0x63]

  // The trailer of a zlib fork: the magics 0x001C0032, "cmpf", 0x0000000A and 0x0001FFFF
  // among zeros.
  function ZlibTrailer(): (s: seq<byte>)
    ensures |s| == 50
  {
    seq(50, i requires 0 <= i < 50 => TrailerByte(i))
  }

  function TrailerByte(i: int): byte {
    match i
    case 25 => 0x1C
    case 27 => 0x32
    case 30 => 0x63
    case 31 => 0x6D
    case 32 => 0x70
    case 33 => 0x66
    case 37 => 0x0A
    case 39 => 0x01
    case 40 => 0xFF
    case 41 => 0xFF
    case _ => 0x00
  }

  /** The trailer as the fields of the format. */
  lemma TrailerFields()
    ensures ZlibTrailer() ==
      Zeros(24) + [0x00, 0x1C, 0x00, 0x32] + Zeros(2) + [0x63, 0x6D, 0x70, 0x66] + [0x00, 0x00, 0x00, 0x0A]
      + [0x00, 0x01, 0xFF, 0xFF] + Zeros(8)
  {
  }

  datatype Kind = Zlib | Lzvn | Lzfse

  datatype Storage = Xattr | ResourceFork

  /** Where a block lies in the resource fork. */
  datatype BlockInfo = BlockInfo(offset: nat, compressedSize: nat)

  /** The positions of consecutive blocks of the given sizes. */
  function BlockPositions(start: nat, sizes: seq<nat>): seq<BlockInfo> {
    seq(|sizes|, i requires 0 <= i < |sizes| => BlockInfo(start + Sum(sizes[..i]), sizes[i]))
  }

  /** The number of blocks needed to store `size` bytes. */
  function NumBlocks(size: nat): (n: nat)
    ensures size <= n * BLOCK_SIZE && (n > 0 ==> (n - 1) * BLOCK_SIZE < size)
  {
    (size + BLOCK_SIZE - 1) / BLOCK_SIZE
  }

  lemma BlocksOf(size: nat, n: nat)
    requires (if n == 0 then 0 else (n - 1) * 0x10000 + 1) <= size <= n * 0x10000
    ensures NumBlocks(size) == n
  {
  }

  function RawType(kind: Kind, storage: Storage): (raw: nat) {
    match (kind, storage)
    case (Zlib, Xattr) => 3
    case (Zlib, ResourceFork) => 4
    case (Lzvn, Xattr) => 7
    case (Lzvn, ResourceFork) => 8
    case (Lzfse, Xattr) => 11
    case (Lzfse, ResourceFork) => 12
  }

  /** Decodes a raw type; exactly the six written types are known. */
  function FromRawType(raw: nat): (r: Option<(Kind, Storage)>)
    ensures r.Some? ==> RawType(r.value.0, r.value.1) == raw
    ensures forall k: Kind, s: Storage :: RawType(k, s) == raw ==> r == Some((k, s))
  {
    match raw
    case 3 => Some((Zlib, Xattr))
    case 4 => Some((Zlib, ResourceFork))
    case 7 => Some((Lzvn, Xattr))
    case 8 => Some((Lzvn, ResourceFork))
    case 11 => Some((Lzfse, Xattr))
    case 12 => Some((Lzfse, ResourceFork))
    case _ => None
  }

  datatype Value = Value(rawType: nat, uncompressedSize: nat, extraData: seq<byte>) {
    predicate Representable() {
      rawType < U32_LIMIT && uncompressedSize < U64_LIMIT
    }
  }

  function ToBytes(v: Value): (bytes: seq<byte>)
    ensures |bytes| == HEADER_LEN + |v.extraData|
  {
    MAGIC + LittleEndian(v.rawType, 4) + LittleEndian(v.uncompressedSize, 8) + v.extraData
  }

  function FromData(data: seq<byte>): Result<Value> {
    if |data| < HEADER_LEN then Err(UnexpectedEof)
    else if data[..4] != MAGIC then Err(InvalidData)
    else Ok(Value(FromLittleEndian(data[4..8]), FromLittleEndian(data[8..16]), data[16..]))
  }

  /** What the attribute says about the data, if its type is known. */
  function Described(attribute: seq<byte>): Result<(Kind, Storage, Value)> {
    match FromData(attribute)
    case Err(e) => Err(e)
    case Ok(value) =>
      match FromRawType(value.rawType)
      case None => Err(Other)
      case Some((kind, storage)) => Ok((kind, storage, value))
  }

  /** Where everything is in an attribute, and what it looks like. */
  lemma AttributeFields(v: Value)
    ensures var bytes := ToBytes(v);
      && bytes[..4] == [0x66, 0x70, 0x6D, 0x63]
      && bytes[4..8] == LE32(v.rawType)
      && bytes[8..16] == LittleEndian(v.uncompressedSize, 8)
      && bytes[16..] == v.extraData
  {
    FourParts(MAGIC, LE32(v.rawType), LittleEndian(v.uncompressedSize, 8), v.extraData);
  }

  /** What is taken for an attribute: sixteen bytes at least, the magic first, and a type that
      is one of the six. */
  lemma AcceptedAttributes(data: seq<byte>)
    ensures |data| < 16 ==> FromData(data) == Err(UnexpectedEof)
    ensures |data| >= 16 && data[..4] != [0x66, 0x70, 0x6D, 0x63] ==> FromData(data) == Err(InvalidData)
    ensures |data| >= 16 && data[..4] == [0x66, 0x70, 0x6D, 0x63] ==>
      && FromData(data).Ok?
      && (Described(data).Ok? <==> FromLittleEndian(data[4..8]) in {3, 4, 7, 8, 11, 12})
  {
  }

  lemma FourParts(a: seq<byte>, b: seq<byte>, c: seq<byte>, d: seq<byte>)
    requires |a| == |b| == 4 && |c| == 8
    ensures (a + b + c + d)[..4] == a && (a + b + c + d)[4..8] == b
    ensures (a + b + c + d)[8..16] == c && (a + b + c + d)[16..] == d
  {
  }

  /** The type numbers: 3, 7 and 11 for data in the attribute, one more for data in the fork. */
  lemma TypeNumbers(kind: Kind)
    ensures RawType(kind, Xattr) ==
      if kind == Zlib then 3 else if kind == Lzvn then 7 else 11
    ensures RawType(kind, ResourceFork) == RawType(kind, Xattr) + 1
  {
  }

  /** Parsing inverts printing. */
  lemma ValueRoundTrip(v: Value)
    requires v.Representable()
    ensures FromData(ToBytes(v)) == Ok(v)
  {
    var bytes := ToBytes(v);
    Widths();
    LittleEndianRoundTrip(v.rawType, 4);
    LittleEndianRoundTrip(v.uncompressedSize, 8);
    assert bytes[..4] == MAGIC;
    assert bytes[4..8] == LittleEndian(v.rawType, 4);
    assert bytes[8..16] == LittleEndian(v.uncompressedSize, 8);
    assert bytes[16..] == v.extraData;
  }

  /** Printing inverts parsing: the parser accepts no second spelling of a value. */
  lemma ValueCanonical(data: seq<byte>)
    requires FromData(data).Ok?
    ensures FromData(data).value.Representable() && ToBytes(FromData(data).value) == data
  {
    Widths();
    FromLittleEndianRoundTrip(data[4..8]);
    FromLittleEndianRoundTrip(data[8..16]);
    assert data == data[..4] + data[4..8] + data[8..16] + data[16..];
  }
}
