/** Strings of bytes as strings of bits: a byte is eight bits with the most significant one first, so
    that position i of the string is bit i % 8 of byte i / 8. */
module Bitmap {
  import opened BitStrings

  type Byte = b: Bits | |b| == 8 witness Zeros(8)

  predicate Bit(p: seq<Byte>, i: nat)
    requires i < 8 * |p|
  {
    p[i / 8][i % 8]
  }

  // The string continued by zero bytes.
  predicate BitZ(p: seq<Byte>, i: nat) {
    i < 8 * |p| && Bit(p, i)
  }

  // A negative index counts from the end, and stops at 0.
  function FromEnd(i: int, total: nat): nat {
    if i >= 0 then i else if total + i < 0 then 0 else total + i
  }

  /** For 0 <= i < total, the index i - total selects what i selects; anything lower selects 0. */
  lemma FromEndMeans(i: int, total: nat)
    ensures 0 <= i < total ==> FromEnd(i - total, total) == i && FromEnd(i, total) == i
    ensures i < 0 - total ==> FromEnd(i, total) == 0
  {
  }

  // Place u of total comes at or after the first index, at or before the last index of a range.
  predicate NotBefore(u: nat, first: int, total: nat) {
    if first >= 0 then first <= u else first + total <= u
  }

  predicate NotAfter(u: nat, last: int, total: nat) {
    if last >= 0 then u <= last else u <= last + total || u == 0
  }

  /** Two indexes of a range, counted from the end where they are negative and clipped to what there is. */
  method ClipIndexes(from: int, to: int, total: nat) returns (start: int, end: int)
    ensures start == FromEnd(from, total)
    ensures end == if FromEnd(to, total) < total then FromEnd(to, total) else total - 1
  {
    start, end := from, to;
    if start < 0 { start := total + start; }
    if end < 0 { end := total + end; }
    if start < 0 { start := 0; }
    if end < 0 { end := 0; }
    if end >= total { end := total - 1; }
  }

  function One(v: bool): nat {
    if v then 1 else 0
  }

  // The byte of a machine number.
  function FromBv(b: bv8): Byte {
    [b & 0x80 != 0, b & 0x40 != 0, b & 0x20 != 0, b & 0x10 != 0, b & 8 != 0, b & 4 != 0, b & 2 != 0, b & 1 != 0]
  }

  // ~((1 << (8 - k)) - 1) & 0xFF
  function FirstMask(k: nat): bv8
    requires k < 8
  {
    (!(((1 as bv16) << (8 - k)) - 1) & 0xFF) as bv8
  }

  // (1 << (7 - k)) - 1
  function LastMask(k: nat): bv8
    requires k < 8
  {
    ((1 as bv8) << (7 - k)) - 1
  }

  /** The masks for the edges of a bit range that starts, or ends, at bit k of its byte: the bits before,
      and the bits after. */
  lemma MaskBits(k: nat, i: nat)
    requires k < 8 && i < 8
    ensures FromBv(FirstMask(k))[i] <==> i < k
    ensures FromBv(LastMask(k))[i] <==> i > k
    ensures FirstMask(k) == 0 <==> k == 0
    ensures LastMask(k) == 0 <==> k == 7
  {
    FirstMaskBits(k, i);
    LastMaskBits(k, i);
  }

  lemma FirstMaskBits(k: nat, i: nat)
    requires k < 8 && i < 8
    ensures FromBv(FirstMask(k))[i] <==> i < k
    ensures FirstMask(k) == 0 <==> k == 0
  {
  }

  lemma LastMaskBits(k: nat, i: nat)
    requires k < 8 && i < 8
    ensures FromBv(LastMask(k))[i] <==> i > k
    ensures LastMask(k) == 0 <==> k == 7
  {
  }

  // ----- counting

  function CountIf(f: nat -> bool, lo: nat, hi: nat): nat
    decreases hi
  {
    if hi <= lo then 0 else CountIf(f, lo, hi - 1) + One(f(hi - 1))
  }

  lemma {:induction false} CountSplit(f: nat -> bool, lo: nat, mid: nat, hi: nat)
    requires lo <= mid <= hi
    ensures CountIf(f, lo, hi) == CountIf(f, lo, mid) + CountIf(f, mid, hi)
    decreases hi
  {
    if mid < hi {
      CountSplit(f, lo, mid, hi - 1);
    }
  }

  lemma {:induction false} CountShift(f: nat -> bool, g: nat -> bool, lo: nat, hi: nat, d: nat)
    requires forall i {:trigger f(i)} :: lo <= i < hi ==> f(i) == g(i + d)
    ensures CountIf(f, lo, hi) == CountIf(g, lo + d, hi + d)
    decreases hi
  {
    if lo < hi {
      CountShift(f, g, lo, hi - 1, d);
    }
  }

  function BitsOf(p: seq<Byte>): nat -> bool {
    (i: nat) => BitZ(p, i)
  }

  /** How many bits are set from position lo up to hi. */
  function Count(p: seq<Byte>, lo: nat, hi: nat): nat {
    CountIf(BitsOf(p), lo, hi)
  }

  // The positions that hold a one.
  ghost function Ones(p: seq<Byte>, lo: nat, hi: nat): set<nat> {
    set i: nat | lo <= i < hi && BitZ(p, i)
  }

  lemma OnesStep(p: seq<Byte>, lo: nat, hi: nat)
    requires lo <= hi
    ensures Ones(p, lo, hi + 1) == Ones(p, lo, hi) + if BitZ(p, hi) then {hi} else {}
  {
  }

  /** How many positions hold a one. */
  lemma {:induction false} CountIsSize(p: seq<Byte>, lo: nat, hi: nat)
    ensures Count(p, lo, hi) == |Ones(p, lo, hi)|
    decreases hi
  {
    if hi <= lo {
      assert Ones(p, lo, hi) == {};
    } else {
      CountIsSize(p, lo, hi - 1);
      OnesStep(p, lo, hi - 1);
    }
  }

  lemma SliceBit(p: seq<Byte>, i: nat, j: nat, k: nat)
    requires i <= j <= |p| && k < 8 * (j - i)
    ensures BitZ(p[i..j], k) == BitZ(p, k + 8 * i)
  {
    assert (k + 8 * i) / 8 == i + k / 8 && (k + 8 * i) % 8 == k % 8;
  }

  // The first n bits of f are those of g from d on.
  ghost predicate Shifted(f: nat -> bool, g: nat -> bool, n: nat, d: nat) {
    forall k {:trigger f(k)} :: 0 <= k < n ==> f(k) == g(k + d)
  }

  lemma SliceBits(p: seq<Byte>, i: nat, j: nat)
    requires i <= j <= |p|
    ensures Shifted(BitsOf(p[i..j]), BitsOf(p), 8 * (j - i), 8 * i)
  {
    forall k: nat | k < 8 * (j - i)
      ensures BitsOf(p[i..j])(k) == BitsOf(p)(k + 8 * i)
    {
      SliceBit(p, i, j, k);
    }
  }

  lemma CountShifted(part: seq<Byte>, p: seq<Byte>, n: nat, d: nat, lo: nat, hi: nat, lo': nat, hi': nat)
    requires Shifted(BitsOf(part), BitsOf(p), n, d) && hi <= n && lo' == lo + d && hi' == hi + d
    ensures Count(part, lo, hi) == Count(p, lo', hi')
  {
    CountShift(BitsOf(part), BitsOf(p), lo, hi, d);
  }

  // Bits counted within a part of the string.
  lemma CountSlice(p: seq<Byte>, i: nat, j: nat, lo: nat, hi: nat)
    requires i <= j <= |p| && hi <= 8 * (j - i)
    ensures Count(p[i..j], lo, hi) == Count(p, lo + 8 * i, hi + 8 * i)
  {
    SliceBits(p, i, j);
    CountShifted(p[i..j], p, 8 * (j - i), 8 * i, lo, hi, lo + 8 * i, hi + 8 * i);
  }

  // bitsinbyte
  function ByteCount(b: Byte): nat {
    One(b[0]) + One(b[1]) + One(b[2]) + One(b[3]) + One(b[4]) + One(b[5]) + One(b[6]) + One(b[7])
  }

  function CountBytes(p: seq<Byte>): nat {
    if p == [] then 0 else CountBytes(p[..|p| - 1]) + ByteCount(p[|p| - 1])
  }

  lemma CountByte(p: seq<Byte>, i: nat)
    requires i < |p|
    ensures Count(p, 8 * i, 8 * i + 8) == ByteCount(p[i])
  {
    ByteBits(p, i);
    CountByteOf(BitsOf(p), 8 * i, p[i]);
  }

  // The eight bits of f from lo on.
  ghost predicate HasByte(f: nat -> bool, lo: nat, b: Byte) {
    forall k {:trigger b[k]} :: 0 <= k < 8 ==> f(lo + k) == b[k]
  }

  lemma ByteBits(p: seq<Byte>, i: nat)
    requires i < |p|
    ensures HasByte(BitsOf(p), 8 * i, p[i])
  {
    forall k | 0 <= k < 8
      ensures BitsOf(p)(8 * i + k) == p[i][k]
    {
    }
  }

  lemma CountByteOf(f: nat -> bool, lo: nat, b: Byte)
    requires HasByte(f, lo, b)
    ensures CountIf(f, lo, lo + 8) == ByteCount(b)
  {
    CountEight(f, lo);
    assert f(lo + 0) == b[0];
  }

  lemma CountEight(f: nat -> bool, lo: nat)
    ensures CountIf(f, lo, lo + 8)
         == One(f(lo)) + One(f(lo + 1)) + One(f(lo + 2)) + One(f(lo + 3))
            + One(f(lo + 4)) + One(f(lo + 5)) + One(f(lo + 6)) + One(f(lo + 7))
  {
    assert CountIf(f, lo, lo) == 0;
    assert CountIf(f, lo, lo + 1) == One(f(lo));
    assert CountIf(f, lo, lo + 2) == One(f(lo)) + One(f(lo + 1));
    assert CountIf(f, lo, lo + 4) == One(f(lo)) + One(f(lo + 1)) + One(f(lo + 2)) + One(f(lo + 3));
    assert CountIf(f, lo, lo + 6) == CountIf(f, lo, lo + 4) + One(f(lo + 4)) + One(f(lo + 5));
  }

  lemma {:induction false} CountBytesIsCount(p: seq<Byte>)
    ensures CountBytes(p) == Count(p, 0, 8 * |p|)
    decreases |p|
  {
    if p != [] {
      var n := |p| - 1;
      CountBytesIsCount(p[..n]);
      assert p[..n] == p[0..n];
      CountSlice(p, 0, n, 0, 8 * n);
      CountByte(p, n);
      CountSplit(BitsOf(p), 0, 8 * n, 8 * |p|);
    }
  }
}
