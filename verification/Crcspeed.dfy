/** The table-driven CRC of crcspeed.c, eight bytes at a time, on little- and big-endian hosts. */
module Crcspeed {
  import opened BitStrings
  import opened Equality
  import opened Crc64

  // ----- one byte and eight bytes at a time

  // Entry n of slice k: the register after the byte n followed by k zero bytes.
  function Slice(g: Word, k: nat, byte: Bits): Word
    requires |byte| == 8
  {
    Steps(g, 8 * (k + 1), Pad(byte, 64))
  }

  lemma SplitLowByte(y: Word)
    ensures Xor(Pad(y[..8], 64), Zeros(8) + y[8..]) == y
  {
  }

  lemma StepsSplit(g: Word, j: nat, y: Word)
    ensures Same(Steps(g, 8 * (j + 1), y), Xor(Slice(g, j, y[..8]), Steps(g, 8 * j, Shr(y, 8))))
  {
    var low: Word := Pad(y[..8], 64);
    var high: Word := Zeros(8) + y[8..];
    SplitLowByte(y);
    StepsLinear(g, 8 * (j + 1), low, high);
    StepsCompose(g, 8, 8 * j, high);
    StepsShift(g, 8, high);
    assert Shr(high, 8) == Shr(y, 8);
  }

  // Byte j of a word, j = 0 being the least significant.
  function ByteAt(w: Word, j: nat): (b: Bits)
    requires j < 8
    ensures |b| == 8
  {
    w[8 * j..8 * j + 8]
  }

  // The slices of bytes j, j+1, ... 7 added up.
  function SliceSum(g: Word, y: Word, j: nat): Word
    requires j <= 8
    decreases 8 - j
  {
    if j == 8 then Zeros(64) else Xor(Slice(g, 7 - j, ByteAt(y, j)), SliceSum(g, y, j + 1))
  }

  lemma ShrByBytes(y: Word, j: nat)
    requires j < 8
    ensures Shr(Shr(y, 8 * j), 8) == Shr(y, 8 * (j + 1))
    ensures Shr(y, 8 * j)[..8] == ByteAt(y, j)
  {
  }

  // The steps over the bytes from j on, n of them, are their slices added up.
  ghost predicate Sliced(g: Word, y: Word, j: nat, n: nat)
    requires j + n == 8
  {
    Same(Steps(g, 8 * n, Shr(y, 8 * j)), SliceSum(g, y, j))
  }

  lemma {:induction false} StepsAreSlices(g: Word, y: Word, j: nat, n: nat)
    requires j + n == 8
    ensures Sliced(g, y, j, n)
    decreases n
  {
    if n == 0 {
      NothingLeft(g, y, j);
    } else {
      StepsAreSlices(g, y, j + 1, n - 1);
      OneMoreSlice(g, y, j, n);
    }
  }

  lemma NothingLeft(g: Word, y: Word, j: nat)
    requires j == 8
    ensures Sliced(g, y, j, 0)
  {
    ShiftedOut(y);
  }

  lemma ShiftedOut(y: Word)
    ensures Shr(y, 64) == Zeros(64)
  {
  }

  lemma SliceStep(g: Word, n: nat, x: Word, byte: Bits, rest: Word)
    requires |byte| == 8 && x[..8] == byte && Shr(x, 8) == rest
    ensures Same(Steps(g, 8 * (n + 1), x), Xor(Slice(g, n, byte), Steps(g, 8 * n, rest)))
  {
    StepsSplit(g, n, x);
  }

  lemma OneMoreSlice(g: Word, y: Word, j: nat, n: nat)
    requires j + n == 8 && n > 0 && Sliced(g, y, j + 1, n - 1)
    ensures Sliced(g, y, j, n)
  {
    ShrByBytes(y, j);
    SliceStep(g, n - 1, Shr(y, 8 * j), ByteAt(y, j), Shr(y, 8 * (j + 1)));
  }

  /** The register after some data, a byte or a whole word further on. */
  lemma Advance(g: Word, start: Word, done: seq<Byte>, chunk: seq<Byte>)
    requires |chunk| <= 8
    ensures BitwiseCrc(g, start, done + chunk)
         == Steps(g, 8 * |chunk|, Xor(BitwiseCrc(g, start, done), Pad(MessageBits(chunk), 64)))
  {
    MessageBitsAppend(done, chunk);
    FeedAppend(g, start, MessageBits(done), MessageBits(chunk));
    FeedMirrored(g, Feed(g, start, MessageBits(done)), MessageBits(chunk));
  }

  /** crc64 of one buffer and then of another is crc64 of the two joined. */
  lemma SplitIndependence(g: Word, start: Word, a: seq<Byte>, b: seq<Byte>)
    ensures BitwiseCrc(g, Mirror(BitwiseCrc(g, start, a)), b) == BitwiseCrc(g, start, a + b)
  {
    MessageBitsAppend(a, b);
    FeedAppend(g, start, MessageBits(a), MessageBits(b));
    var r := Feed(g, start, MessageBits(a));
    assert Mirror(Mirror(r)) == r;
  }

  // ----- the tables

  ghost predicate LittleTable(g: Word, table: array2<Word>)
    reads table
  {
    && table.Length0 == 8 && table.Length1 == 256
    && forall k, n :: 0 <= k < 8 && 0 <= n < 256 ==> table[k, n] == Slice(g, k, ToBits(n, 8))
  }

  lemma PowersOfTwo()
    ensures Pow2(8) == 256
  {
    assert Pow2(4) == 16;
  }

  // Looking a byte up in the table.
  lemma Lookup(g: Word, table: array2<Word>, k: nat, b: Bits)
    requires LittleTable(g, table) && k < 8 && |b| == 8
    ensures FromBits(b) < 256 && table[k, FromBits(b)] == Slice(g, k, b)
  {
    PowersOfTwo();
    FromToBits(b);
  }

  // One round of the register through slice 0 of the table.
  lemma ByteStep(g: Word, crc: Word, b: Bits)
    requires |b| == 8
    ensures Same(Xor(Slice(g, 0, Xor(crc, Pad(b, 64))[..8]), Shr(crc, 8)), Steps(g, 8, Xor(crc, Pad(b, 64))))
  {
    var y: Word := Xor(crc, Pad(b, 64));
    StepsSplit(g, 0, y);
    PadKeepsHigh(crc, b);
  }

  lemma PadKeepsHigh(crc: Word, b: Bits)
    requires |b| == 8
    ensures Shr(Xor(crc, Pad(b, 64)), 8) == Shr(crc, 8)
  {
  }

  /** crcspeed64little_init with crcfn = _crc64. */
  method InitLittle(g: Word, table: array2<Word>)
    requires table.Length0 == 8 && table.Length1 == 256
    modifies table
    ensures LittleTable(g, table)
  {
    for n := 0 to 256
      invariant forall m :: 0 <= m < n ==> table[0, m] == Slice(g, 0, ToBits(m, 8))
    {
      var crc := Crc64BitByBit(g, Zeros(64), [n]);
      FirstSlice(g, n);
      table[0, n] := crc;
    }
    for n := 0 to 256
      invariant FirstSliceFilled(g, table)
      invariant forall k, m :: 0 <= k < 8 && 0 <= m < n ==> table[k, m] == Slice(g, k, ToBits(m, 8))
    {
      FillEntries(g, table, n);
    }
  }

  ghost predicate FirstSliceFilled(g: Word, table: array2<Word>)
    requires table.Length0 == 8 && table.Length1 == 256
    reads table
  {
    forall m :: 0 <= m < 256 ==> table[0, m] == Slice(g, 0, ToBits(m, 8))
  }

  // Entry n of slices 1 to 7.
  method FillEntries(g: Word, table: array2<Word>, n: Byte)
    requires table.Length0 == 8 && table.Length1 == 256
    requires FirstSliceFilled(g, table)
    modifies table
    ensures forall k, m :: 0 <= k < 8 && 0 <= m < 256 && (k == 0 || m != n) ==> table[k, m] == old(table[k, m])
    ensures forall k :: 1 <= k < 8 ==> table[k, n] == Slice(g, k, ToBits(n, 8))
  {
    var crc := table[0, n];
    for k := 1 to 8
      invariant forall j, m :: 0 <= j < 8 && 0 <= m < 256 && (j == 0 || m != n) ==> table[j, m] == old(table[j, m])
      invariant forall j :: 1 <= j < k ==> table[j, n] == Slice(g, j, ToBits(n, 8))
      invariant crc == Slice(g, k - 1, ToBits(n, 8))
    {
      NextSlice(g, k, n, crc);
      crc := Xor(table[0, FromBits(crc[..8])], Shr(crc, 8));
      table[k, n] := crc;
    }
  }

  lemma FirstSlice(g: Word, n: Byte)
    ensures BitwiseCrc(g, Zeros(64), [n]) == Slice(g, 0, ToBits(n, 8))
  {
    assert MessageBits([n]) == ToBits(n, 8) + MessageBits([n][1..]) == ToBits(n, 8);
    FeedMirrored(g, Zeros(64), ToBits(n, 8));
    assert Xor(Mirror(Zeros(64)), Pad(ToBits(n, 8), 64)) == Pad(ToBits(n, 8), 64);
  }

  lemma NextSlice(g: Word, k: nat, n: Byte, crc: Word)
    requires 1 <= k < 8 && crc == Slice(g, k - 1, ToBits(n, 8))
    ensures FromBits(crc[..8]) < 256
    ensures Same(Xor(Slice(g, 0, ToBits(FromBits(crc[..8]), 8)), Shr(crc, 8)), Slice(g, k, ToBits(n, 8)))
  {
    PowersOfTwo();
    FromToBits(crc[..8]);
    StepsSplit(g, 0, crc);
    StepsCompose(g, 8 * k, 8, Pad(ToBits(n, 8), 64));
    assert 8 * k + 8 == 8 * (k + 1);
  }

  // ----- the little-endian routine

  // Eight bytes read as one little-endian word.
  function LoadLittle(bytes: seq<Byte>): Word
    requires |bytes| == 8
  {
    MessageBits(bytes)
  }

  lemma WordStep(g: Word, y: Word)
    ensures Steps(g, 64, y)
         == Xor(Xor(Xor(Xor(Xor(Xor(Xor(
              Slice(g, 7, ByteAt(y, 0)), Slice(g, 6, ByteAt(y, 1))), Slice(g, 5, ByteAt(y, 2))),
              Slice(g, 4, ByteAt(y, 3))), Slice(g, 3, ByteAt(y, 4))), Slice(g, 2, ByteAt(y, 5))),
              Slice(g, 1, ByteAt(y, 6))), Slice(g, 0, ByteAt(y, 7)))
  {
    StepsAreSlices(g, y, 0, 8);
    assert Shr(y, 0) == y;
    XorNesting(Slice(g, 7, ByteAt(y, 0)), Slice(g, 6, ByteAt(y, 1)), Slice(g, 5, ByteAt(y, 2)),
               Slice(g, 4, ByteAt(y, 3)), Slice(g, 3, ByteAt(y, 4)), Slice(g, 2, ByteAt(y, 5)),
               Slice(g, 1, ByteAt(y, 6)), Slice(g, 0, ByteAt(y, 7)));
    SliceSumUnrolled(g, y);
  }

  lemma SliceSumUnrolled(g: Word, y: Word)
    ensures SliceSum(g, y, 0)
         == Xor(Slice(g, 7, ByteAt(y, 0)), Xor(Slice(g, 6, ByteAt(y, 1)), Xor(Slice(g, 5, ByteAt(y, 2)),
            Xor(Slice(g, 4, ByteAt(y, 3)), Xor(Slice(g, 3, ByteAt(y, 4)), Xor(Slice(g, 2, ByteAt(y, 5)),
            Xor(Slice(g, 1, ByteAt(y, 6)), Xor(Slice(g, 0, ByteAt(y, 7)), Zeros(64)))))))))
  {
    assert SliceSum(g, y, 6) == Xor(Slice(g, 1, ByteAt(y, 6)), Xor(Slice(g, 0, ByteAt(y, 7)), Zeros(64)));
    assert SliceSum(g, y, 4) == Xor(Slice(g, 3, ByteAt(y, 4)), Xor(Slice(g, 2, ByteAt(y, 5)), SliceSum(g, y, 6)));
    assert SliceSum(g, y, 2) == Xor(Slice(g, 5, ByteAt(y, 2)), Xor(Slice(g, 4, ByteAt(y, 3)), SliceSum(g, y, 4)));
  }

  lemma XorNesting(a: Word, b: Word, c: Word, d: Word, e: Word, f: Word, h: Word, i: Word)
    ensures Xor(a, Xor(b, Xor(c, Xor(d, Xor(e, Xor(f, Xor(h, Xor(i, Zeros(64)))))))))
         == Xor(Xor(Xor(Xor(Xor(Xor(Xor(a, b), c), d), e), f), h), i)
  {
  }

  lemma NothingRead(g: Word, start: Word)
    ensures BitwiseCrc(g, Mirror(start), []) == start
  {
    assert Mirror(Mirror(start)) == start;
  }

  // The bytes up to the first aligned one.
  method UnalignedLittle(g: Word, table: array2<Word>, start: Word, buf: seq<Byte>, address: nat, ghost init: Word)
      returns (crc: Word, next: nat)
    requires LittleTable(g, table) && start == BitwiseCrc(g, init, [])
    ensures next <= |buf| && crc == BitwiseCrc(g, init, buf[..next])
  {
    crc, next := start, 0;
    assert buf[..0] == [];
    while next < |buf| && (address + next) % 8 != 0
      invariant 0 <= next <= |buf|
      invariant crc == BitwiseCrc(g, init, buf[..next])
    {
      ByteOn(g, init, buf, next);
      crc := OneByteLittle(g, table, crc, buf[next]);
      next := next + 1;
    }
  }

  /** crcspeed64little: address is where the buffer starts, for the alignment test. */
  method Crcspeed64Little(g: Word, table: array2<Word>, start: Word, buf: seq<Byte>, address: nat)
      returns (crc: Word)
    requires LittleTable(g, table)
    ensures crc == BitwiseCrc(g, Mirror(start), buf)
  {
    ghost var init: Word := Mirror(start);
    NothingRead(g, start);
    var next;
    crc, next := UnalignedLittle(g, table, start, buf, address, init);
    crc := AlignedLittle(g, table, crc, buf, next, init);
  }

  // From an aligned address on: whole words, then the bytes left over.
  method AlignedLittle(g: Word, table: array2<Word>, reached: Word, buf: seq<Byte>, from: nat, ghost init: Word)
      returns (crc: Word)
    requires LittleTable(g, table) && from <= |buf|
    requires reached == BitwiseCrc(g, init, buf[..from])
    ensures crc == BitwiseCrc(g, init, buf)
  {
    crc := reached;
    var next := from;
    while |buf| - next >= 8
      invariant 0 <= next <= |buf|
      invariant crc == BitwiseCrc(g, init, buf[..next])
    {
      WordAdvance(g, init, buf, next);
      crc := Xor(crc, LoadLittle(buf[next..next + 8]));
      crc := SlicedLittle(g, table, crc);
      next := next + 8;
    }
    while next < |buf|
      invariant 0 <= next <= |buf|
      invariant crc == BitwiseCrc(g, init, buf[..next])
    {
      ByteOn(g, init, buf, next);
      crc := OneByteLittle(g, table, crc, buf[next]);
      next := next + 1;
    }
    assert buf[..next] == buf;
  }

  lemma WordAdvance(g: Word, init: Word, buf: seq<Byte>, next: nat)
    requires next + 8 <= |buf|
    ensures BitwiseCrc(g, init, buf[..next + 8])
         == Steps(g, 64, Xor(BitwiseCrc(g, init, buf[..next]), LoadLittle(buf[next..next + 8])))
  {
    assert buf[..next + 8] == buf[..next] + buf[next..next + 8];
    Advance(g, init, buf[..next], buf[next..next + 8]);
    assert Pad(MessageBits(buf[next..next + 8]), 64) == MessageBits(buf[next..next + 8]);
  }

  lemma ByteOn(g: Word, init: Word, buf: seq<Byte>, next: nat)
    requires next < |buf|
    ensures BitwiseCrc(g, init, buf[..next + 1])
         == Steps(g, 8, Xor(BitwiseCrc(g, init, buf[..next]), Pad(ToBits(buf[next], 8), 64)))
  {
    assert buf[..next + 1] == buf[..next] + [buf[next]];
    assert MessageBits([buf[next]]) == ToBits(buf[next], 8) + MessageBits([buf[next]][1..]) == ToBits(buf[next], 8);
    Advance(g, init, buf[..next], [buf[next]]);
  }

  // One byte through slice 0 of the table.
  method OneByteLittle(g: Word, table: array2<Word>, crc: Word, byte: Byte) returns (r: Word)
    requires LittleTable(g, table)
    ensures r == Steps(g, 8, Xor(crc, Pad(ToBits(byte, 8), 64)))
  {
    var index := Xor(crc, Pad(ToBits(byte, 8), 64))[..8];
    Lookup(g, table, 0, index);
    ByteStep(g, crc, ToBits(byte, 8));
    r := Xor(table[0, FromBits(index)], Shr(crc, 8));
  }

  // The eight table lookups of one round.
  method SlicedLittle(g: Word, table: array2<Word>, crc: Word) returns (r: Word)
    requires LittleTable(g, table)
    ensures r == Steps(g, 64, crc)
  {
    Lookup(g, table, 7, ByteAt(crc, 0));
    Lookup(g, table, 6, ByteAt(crc, 1));
    Lookup(g, table, 5, ByteAt(crc, 2));
    Lookup(g, table, 4, ByteAt(crc, 3));
    Lookup(g, table, 3, ByteAt(crc, 4));
    Lookup(g, table, 2, ByteAt(crc, 5));
    Lookup(g, table, 1, ByteAt(crc, 6));
    Lookup(g, table, 0, ByteAt(crc, 7));
    WordStep(g, crc);
    r := Xor(Xor(Xor(Xor(Xor(Xor(Xor(
           table[7, FromBits(ByteAt(crc, 0))], table[6, FromBits(ByteAt(crc, 1))]),
           table[5, FromBits(ByteAt(crc, 2))]), table[4, FromBits(ByteAt(crc, 3))]),
           table[3, FromBits(ByteAt(crc, 4))]), table[2, FromBits(ByteAt(crc, 5))]),
           table[1, FromBits(ByteAt(crc, 6))]), table[0, FromBits(ByteAt(crc, 7))]);
  }
}
