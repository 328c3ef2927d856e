/** The in-memory staging buffer: a growable, seekable byte vector that never outgrows its
    reservation. */
module MemoryStaging {
  import opened Bytes
  import opened Wrappers
  import opened SeekableStore

  /** What a plain seekable byte store would hold, and where it stands. */
  datatype Plain = Plain(data: seq<byte>, pos: nat)

  datatype Op =
    | Write(bytes: seq<byte>)
    | SeekStart(target: nat)
    | SeekEnd(offset: int)
    | SeekCurrent(offset: int)

  /** Whether the store accepts an operation: no seek before the start, no write past the limit. */
  predicate Accepts(p: Plain, limit: nat, op: Op) {
    match op
    case Write(bytes) => bytes == [] || p.pos + |bytes| <= limit
    case SeekStart(_) => true
    case SeekEnd(offset) => 0 <= |p.data| + offset
    case SeekCurrent(offset) => 0 <= p.pos + offset
  }

  /** The store after one operation; a rejected one changes nothing. */
  function Apply(p: Plain, limit: nat, op: Op): Plain {
    if !Accepts(p, limit, op) then p
    else match op
      case Write(bytes) => Plain(Overwrite(p.data, p.pos, bytes), p.pos + |bytes|)
      case SeekStart(target) => p.(pos := target)
      case SeekEnd(offset) => p.(pos := |p.data| + offset)
      case SeekCurrent(offset) => p.(pos := p.pos + offset)
  }

  function ApplyAll(p: Plain, limit: nat, ops: seq<Op>): Plain
    decreases |ops|
  {
    if ops == [] then p else ApplyAll(Apply(p, limit, ops[0]), limit, ops[1..])
  }

  class MemoryPayload {
    // The vector: its allocation and how much of it is in use.
    var data: array<byte>
    var len: nat
    var pos: nat
    const limit: nat
    // Whether growing the allocation can fail.
    const allocates: bool

    ghost predicate Valid()
      reads this
    {
      len <= data.Length <= limit
    }

    function Contents(): (c: seq<byte>)
      requires Valid()
      reads this, data
    {
      data[..len]
    }

    function View(): Plain
      requires Valid()
      reads this, data
    {
      Plain(Contents(), pos)
    }

    constructor (limit: nat, allocates: bool)
      ensures Valid() && View() == Plain([], 0) && fresh(data)
      ensures this.limit == limit && this.allocates == allocates
    {
      data := new byte[0];
      len, pos := 0, 0;
      this.limit, this.allocates := limit, allocates;
    }

    /** Moves the vector to a larger allocation. */
    method Reallocate(capacity: nat) returns (r: Result<()>)
      requires Valid() && data.Length <= capacity <= limit
      modifies this`data
      ensures Valid() && Contents() == old(Contents())
      ensures allocates ==> r.Ok?
      ensures r.Ok? ==> data.Length == capacity && fresh(data)
      ensures r.Err? ==> data == old(data)
    {
      var succeeds: bool := *;
      if !allocates && !succeeds {
        return Err(Other);
      }
      var grown := new byte[capacity];
      forall i | 0 <= i < len {
        grown[i] := data[i];
      }
      data := grown;
      return Ok(());
    }

    /** Puts bytes at the cursor of a vector with room for them, padding a hole with zeros. */
    method Place(bytes: seq<byte>)
      requires Valid() && bytes != [] && pos + |bytes| <= data.Length
      modifies this`len, this`pos, data
      ensures Valid() && Contents() == Overwrite(old(Contents()), old(pos), bytes)
      ensures pos == old(pos) + |bytes|
    {
      forall i | len <= i < pos {
        data[i] := 0;
      }
      forall i | 0 <= i < |bytes| {
        data[pos + i] := bytes[i];
      }
      len, pos := Max(len, pos + |bytes|), pos + |bytes|;
    }

    method WriteBytes(bytes: seq<byte>) returns (r: Result<nat>)
      requires Valid()
      modifies this, data
      ensures Valid() && (data == old(data) || fresh(data))
      ensures allocates ==> (r.Ok? <==> Accepts(old(View()), limit, Write(bytes)))
      ensures r.Ok? ==>
        && r.value == |bytes| && Accepts(old(View()), limit, Write(bytes))
        && View() == Apply(old(View()), limit, Write(bytes))
      ensures allocates ==> (r.Ok? <==> bytes == [] || old(pos) + |bytes| <= limit)
      ensures r.Ok? ==> Contents() == Overwrite(old(Contents()), old(pos), bytes) && pos == old(pos) + |bytes|
      ensures r.Err? ==> View() == old(View())
      ensures data.Length == old(data.Length) || data.Length >= Min(2 * old(data.Length), limit)
      ensures old(data.Length) <= data.Length
    {
      if bytes == [] {
        return Ok(0);
      }
      var end := pos + |bytes|;
      if end > limit {
        return Err(Other);
      }
      if end > data.Length {
        var capacity := Min(Max(end, data.Length * 2), limit);
        var _ :- Reallocate(capacity);
      }
      Place(bytes);
      return Ok(|bytes|);
    }

    method Seek(op: Op) returns (r: Result<nat>)
      requires Valid() && !op.Write?
      modifies this`pos
      ensures Valid() && (r.Ok? <==> Accepts(old(View()), limit, op))
      ensures View() == Apply(old(View()), limit, op) && (r.Ok? ==> r.value == pos)
      ensures op.SeekStart? ==> r == Ok(op.target)
      ensures op.SeekEnd? ==> r == if len + op.offset < 0 then Err(InvalidInput) else Ok(len + op.offset)
      ensures op.SeekCurrent? ==> r == if old(pos) + op.offset < 0 then Err(InvalidInput) else Ok(old(pos) + op.offset)
    {
      var target := match op
        case SeekStart(target) => target
        case SeekEnd(offset) => len + offset
        case SeekCurrent(offset) => pos + offset;
      if target < 0 {
        return Err(InvalidInput);
      }
      pos := target;
      return Ok(target);
    }

    /** Any sequence of operations: with an allocator that does not fail, the vector behaves
        as the plain store, within its limit throughout. */
    method Perform(ops: seq<Op>)
      requires Valid() && allocates
      modifies this, data
      ensures Valid() && View() == ApplyAll(old(View()), limit, ops)
    {
      assert ops[0..] == ops;
      for i := 0 to |ops|
        invariant Valid() && (data == old(data) || fresh(data))
        invariant ApplyAll(View(), limit, ops[i..]) == ApplyAll(old(View()), limit, ops)
      {
        assert ops[i..][1..] == ops[i + 1..];
        if ops[i].Write? {
          var _ := WriteBytes(ops[i].bytes);
        } else {
          var _ := Seek(ops[i]);
        }
      }
    }

    /** Gives back the spare capacity. */
    method ShrinkToFit() returns (staged: array<byte>)
      requires Valid()
      ensures fresh(staged) && staged[..] == Contents() && staged.Length <= limit
    {
      staged := new byte[len];
      forall i | 0 <= i < len {
        staged[i] := data[i];
      }
    }
  }
}
