/** Bytes, fixed-width little- and big-endian integers, and concatenation of blocks. */
module Bytes {

  type byte = b: int | 0 <= b < 0x100

  const U32_LIMIT: nat := 0x1_0000_0000
  const U32_MAX: nat := 0xFFFF_FFFF
  const U64_LIMIT: nat := 0x1_0000_0000_0000_0000

  function Zeros(n: nat): (s: seq<byte>)
    ensures |s| == n
  {
    seq(n, _ => 0)
  }

  function Min(a: nat, b: nat): nat {
    if a <= b then a else b
  }

  function Max(a: nat, b: nat): nat {
    if a <= b then b else a
  }

  /** Subtraction on an unsigned counter, stopping at zero. */
  function Saturating(a: nat, b: nat): nat {
    if b <= a then a - b else 0
  }

  function One(b: bool): nat {
    if b then 1 else 0
  }

  // ----- fixed-width integers

  /** 256 to the power `n`: the number of values `n` bytes can hold. */
  function Width(n: nat): nat {
    if n == 0 then 1 else 0x100 * Width(n - 1)
  }

  /** The low `n` bytes of `x`, least significant first. */
  function LittleEndian(x: nat, n: nat): (s: seq<byte>)
    ensures |s| == n
  {
    if n == 0 then [] else [x % 0x100] + LittleEndian(x / 0x100, n - 1)
  }

  /** The low `n` bytes of `x`, most significant first. */
  function BigEndian(x: nat, n: nat): (s: seq<byte>)
    ensures |s| == n
  {
    if n == 0 then [] else BigEndian(x / 0x100, n - 1) + [x % 0x100]
  }

  function FromLittleEndian(s: seq<byte>): nat {
    if s == [] then 0 else s[0] + 0x100 * FromLittleEndian(s[1..])
  }

  lemma {:induction false} LittleEndianRoundTrip(x: nat, n: nat)
    requires x < Width(n)
    ensures FromLittleEndian(LittleEndian(x, n)) == x
  {
    if n == 0 {
    } else {
      LittleEndianRoundTrip(x / 0x100, n - 1);
      assert LittleEndian(x, n)[1..] == LittleEndian(x / 0x100, n - 1);
    }
  }

  /** Encoding is onto: a byte string is the encoding of the number it decodes to. */
  lemma {:induction false} FromLittleEndianRoundTrip(s: seq<byte>)
    ensures FromLittleEndian(s) < Width(|s|)
    ensures LittleEndian(FromLittleEndian(s), |s|) == s
  {
    if s == [] {
    } else {
      FromLittleEndianRoundTrip(s[1..]);
    }
  }

  /** The two byte orders are mirror images, so a field written in one and read in the
      other is caught by any value that is not a palindrome. */
  lemma {:induction false} BigEndianMirrors(x: nat, n: nat, i: nat)
    requires i < n
    ensures BigEndian(x, n)[i] == LittleEndian(x, n)[n - 1 - i]
  {
    if i == n - 1 {
    } else {
      BigEndianMirrors(x / 0x100, n - 1, i);
    }
  }

  /** Byte `i` of a little-endian field is the one that counts the 256^i. */
  lemma {:induction false} LittleEndianDigit(x: nat, n: nat, i: nat)
    requires i < n
    ensures Width(i) > 0 && LittleEndian(x, n)[i] == x / Width(i) % 0x100
  {
    if i == 0 {
    } else {
      LittleEndianDigit(x / 0x100, n - 1, i - 1);
      DivideOnce(x, Width(i - 1));
    }
  }

  lemma DivideOnce(x: nat, w: nat)
    requires w > 0
    ensures x / 0x100 / w == x / (0x100 * w)
  {
    var q := x / 0x100 / w;
    assert (0x100 * w) * q == 0x100 * (w * q);
    Quotient(x, 0x100 * w, q);
  }

  lemma Quotient(x: nat, d: nat, q: nat)
    requires d > 0 && d * q <= x < d * q + d
    ensures x / d == q
  {
    TimesIsMonotone(d, x / d + 1, q);
    TimesIsMonotone(d, q + 1, x / d);
  }

  lemma TimesIsMonotone(d: nat, a: nat, b: nat)
    ensures a <= b ==> d * a <= d * b
  {
    if a <= b {
      assert d * b == d * a + d * (b - a);
    }
  }

  /** The two orders on a number that tells them apart. */
  lemma ByteOrders()
    ensures LE32(0x1020304) == [4, 3, 2, 1] && BE32(0x1020304) == [1, 2, 3, 4]
  {
    assert LittleEndian(0x1020304, 4) == [4] + ([3] + ([2] + ([1] + LittleEndian(0, 0)))) by {
      assert LittleEndian(0x102, 2) == [2] + ([1] + LittleEndian(0, 0));
    }
    assert BigEndian(0x102, 2) == (BigEndian(0, 0) + [1]) + [2];
  }

  lemma Widths()
    ensures Width(4) == U32_LIMIT && Width(8) == U64_LIMIT
  {
    assert Width(2) == 0x1_0000;
    assert Width(4) == 0x1_0000 * 0x1_0000;
    assert Width(6) == 0x1_0000 * Width(4);
  }

  function LE32(x: nat): (s: seq<byte>)
    ensures |s| == 4
  {
    LittleEndian(x, 4)
  }

  function BE32(x: nat): (s: seq<byte>)
    ensures |s| == 4
  {
    BigEndian(x, 4)
  }

  /** Reads back a 32-bit little-endian field. */
  function FromLE32(s: seq<byte>): (x: nat)
    requires |s| == 4
    ensures x < U32_LIMIT
  {
    FromLittleEndianRoundTrip(s);
    Widths();
    FromLittleEndian(s)
  }

  lemma FromLE32RoundTrip(s: seq<byte>)
    requires |s| == 4
    ensures LE32(FromLE32(s)) == s
  {
    FromLittleEndianRoundTrip(s);
  }

  lemma LE32RoundTrip(x: nat)
    requires x < U32_LIMIT
    ensures FromLE32(LE32(x)) == x
  {
    Widths();
    LittleEndianRoundTrip(x, 4);
  }

  // ----- concatenation

  lemma ConcatAssociates(a: seq<byte>, b: seq<byte>, c: seq<byte>)
    ensures a + (b + c) == a + b + c
  {
  }

  function Flatten(blocks: seq<seq<byte>>): seq<byte> {
    if blocks == [] then [] else blocks[0] + Flatten(blocks[1..])
  }

  function Sum(sizes: seq<nat>): nat {
    if sizes == [] then 0 else sizes[0] + Sum(sizes[1..])
  }

  function Sizes(blocks: seq<seq<byte>>): (s: seq<nat>)
    ensures |s| == |blocks|
  {
    seq(|blocks|, i requires 0 <= i < |blocks| => |blocks[i]|)
  }

  lemma {:induction false} FlattenAppend(a: seq<seq<byte>>, b: seq<seq<byte>>)
    ensures Flatten(a + b) == Flatten(a) + Flatten(b)
  {
    if a == [] {
      assert a + b == b;
    } else {
      assert (a + b)[1..] == a[1..] + b;
      FlattenAppend(a[1..], b);
    }
  }

  lemma FlattenSnoc(a: seq<seq<byte>>, block: seq<byte>)
    ensures Flatten(a + [block]) == Flatten(a) + block
  {
    FlattenAppend(a, [block]);
    assert Flatten([block]) == block + Flatten([]);
  }

  lemma {:induction false} SumAppend(a: seq<nat>, b: seq<nat>)
    ensures Sum(a + b) == Sum(a) + Sum(b)
  {
    if a == [] {
      assert a + b == b;
    } else {
      assert (a + b)[1..] == a[1..] + b;
      SumAppend(a[1..], b);
    }
  }

  lemma SumSnoc(a: seq<nat>, x: nat)
    ensures Sum(a + [x]) == Sum(a) + x
  {
    SumAppend(a, [x]);
  }

  lemma SumPrefix(sizes: seq<nat>, i: nat)
    requires i < |sizes|
    ensures Sum(sizes[..i + 1]) == Sum(sizes[..i]) + sizes[i]
    ensures Sum(sizes[..i + 1]) <= Sum(sizes)
  {
    assert sizes[..i + 1] == sizes[..i] + [sizes[i]];
    SumSnoc(sizes[..i], sizes[i]);
    assert sizes == sizes[..i + 1] + sizes[i + 1..];
    SumAppend(sizes[..i + 1], sizes[i + 1..]);
  }

  lemma {:induction false} FlattenLength(blocks: seq<seq<byte>>)
    ensures |Flatten(blocks)| == Sum(Sizes(blocks))
  {
    if blocks == [] {
    } else {
      FlattenLength(blocks[1..]);
      assert Sizes(blocks)[1..] == Sizes(blocks[1..]);
    }
  }

  /** Block `i` sits in the concatenation right after all earlier blocks. */
  lemma {:induction false} FlattenAt(blocks: seq<seq<byte>>, i: nat)
    requires i < |blocks|
    ensures Sum(Sizes(blocks)[..i]) + |blocks[i]| <= |Flatten(blocks)|
    ensures Flatten(blocks)[Sum(Sizes(blocks)[..i])..Sum(Sizes(blocks)[..i]) + |blocks[i]|] == blocks[i]
  {
    var before, after := blocks[..i], blocks[i + 1..];
    assert blocks == before + ([blocks[i]] + after);
    FlattenAppend(before, [blocks[i]] + after);
    assert ([blocks[i]] + after)[1..] == after;
    FlattenLength(before);
    assert Sizes(blocks)[..i] == Sizes(before);
  }
}
