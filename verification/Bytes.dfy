/** Byte strings, little-endian integers and the pieces a network read cuts them into. */
module Bytes {

  import opened Wrappers

  type byte = x: int | 0 <= x < 256

  type bytes = seq<byte>

  /** `struct.unpack("<H", ...)` at `p`. */
  function U16(b: bytes, p: nat): nat
    requires p + 2 <= |b|
  {
    (b[p] as int) + 0x100 * (b[p + 1] as int)
  }

  /** `struct.unpack("<I", ...)` at `p`. */
  function U32(b: bytes, p: nat): nat
    requires p + 4 <= |b|
  {
    (b[p] as int) + 0x100 * (b[p + 1] as int) + 0x1_0000 * (b[p + 2] as int) + 0x100_0000 * (b[p + 3] as int)
  }

  const U16_LIMIT := 0x1_0000
  const U32_LIMIT := 0x1_0000_0000

  /** `struct.pack("<H", n)`; the caller sees to the range, `struct` raises outside it. */
  function Pack16(n: nat): (b: bytes)
    requires n < U16_LIMIT
    ensures |b| == 2 && U16(b, 0) == n
  {
    [n % 0x100, n / 0x100]
  }

  /** `struct.pack("<I", n)`. */
  function Pack32(n: nat): (b: bytes)
    requires n < U32_LIMIT
    ensures |b| == 4 && U32(b, 0) == n
  {
    var q1 := n / 0x100;
    var q2 := q1 / 0x100;
    var q3 := q2 / 0x100;
    [n % 0x100, q1 % 0x100, q2 % 0x100, q3]
  }

  /** A slice that spells `x` is read as `x` is. */
  lemma U32Slice(b: bytes, p: nat, x: bytes)
    requires p + 4 <= |b| && b[p..p + 4] == x
    ensures U32(b, p) == U32(x, 0)
  {
    forall i | 0 <= i < 4
      ensures b[p + i] == x[i]
    {
      assert b[p..p + 4][i] == x[i];
    }
  }

  lemma U16Slice(b: bytes, p: nat, x: bytes)
    requires p + 2 <= |b| && b[p..p + 2] == x
    ensures U16(b, p) == U16(x, 0)
  {
    assert b[p..p + 2][0] == x[0] && b[p..p + 2][1] == x[1];
  }

  lemma Window(before: bytes, x: bytes, after: bytes)
    ensures (before + x + after)[|before|..|before| + |x|] == x
  {
  }

  /** All the bytes of a list of reads, in order. */
  function Concat(pieces: seq<bytes>): bytes {
    if pieces == [] then [] else Concat(pieces[..|pieces| - 1]) + pieces[|pieces| - 1]
  }

  lemma ConcatAppend(pieces: seq<bytes>, last: bytes)
    ensures Concat(pieces + [last]) == Concat(pieces) + last
  {
    assert (pieces + [last])[..|pieces|] == pieces;
  }

  lemma ConcatPrefix(pieces: seq<bytes>, i: nat)
    requires i < |pieces|
    ensures Concat(pieces[..i + 1]) == Concat(pieces[..i]) + pieces[i]
  {
    assert pieces[..i + 1][..i] == pieces[..i];
  }

  lemma {:induction false} ConcatJoin(a: seq<bytes>, b: seq<bytes>)
    ensures Concat(a + b) == Concat(a) + Concat(b)
  {
    if b == [] {
      assert a + b == a;
    } else {
      ConcatJoin(a, DropLast(b));
      LastOfJoin(a, b);
      Associate(Concat(a), Concat(DropLast(b)), Last(b));
    }
  }
}
