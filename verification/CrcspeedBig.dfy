/** The CRC routines of crcspeed.c for big-endian hosts. The register and the tables hold every
    word with its bytes in the opposite order, so that a word load needs no swap. */
module CrcspeedBig {
  import opened BitStrings
  import opened Crc64
  import opened Crcspeed

  // ----- rev8

  /** rev8, as the compiler's byte-swap builtin: the bytes in the opposite order. */
  function Rev8(a: Word): Word {
    a[56..64] + a[48..56] + a[40..48] + a[32..40] + a[24..32] + a[16..24] + a[8..16] + a[0..8]
  }

  // The word whose bits are set in every other group of k.
  function Stripes(k: nat): Word
    requires k > 0
  {
    seq(64, i => i / k % 2 == 0)
  }

  // ((a >> k) & m) | (a & m) << k
  function SwapGroups(a: Word, k: nat): Word
    requires 0 < k <= 64
  {
    Or(And(Shr(a, k), Stripes(k)), Shl(And(a, Stripes(k)), k))
  }

  // Bit i comes from the other group of its pair.
  lemma SwapAt(a: Word, k: nat, i: nat)
    requires (k == 8 || k == 16) && i < 64
    ensures SwapGroups(a, k)[i] == if i / k % 2 == 0 then a[i + k] else a[i - k]
  {
    if i / k % 2 == 0 {
      SwapLow(a, k, i, Stripes(k));
    } else {
      SwapHigh(a, k, i, Stripes(k));
    }
  }

  lemma SwapLow(a: Word, k: nat, i: nat, m: Word)
    requires (k == 8 || k == 16) && i < 64 && i / k % 2 == 0 && m == Stripes(k)
    ensures i + k < 64 && Or(And(Shr(a, k), m), Shl(And(a, m), k))[i] == a[i + k]
  {
    assert And(Shr(a, k), m)[i] == a[i + k];
    assert i >= k ==> (i - k) / k % 2 == 1;
    assert i >= k ==> !And(a, m)[i - k];
  }

  lemma SwapHigh(a: Word, k: nat, i: nat, m: Word)
    requires (k == 8 || k == 16) && i < 64 && i / k % 2 != 0 && m == Stripes(k)
    ensures i >= k && Or(And(Shr(a, k), m), Shl(And(a, m), k))[i] == a[i - k]
  {
    assert !And(Shr(a, k), m)[i];
    assert (i - k) / k % 2 == 0;
    assert And(a, m)[i - k] == a[i - k];
  }

  // Byte j comes from the other byte of its pair.
  lemma SwapByte(a: Word, j: nat)
    requires j < 8
    ensures ByteAt(SwapGroups(a, 8), j) == ByteAt(a, if j % 2 == 0 then j + 1 else j - 1)
  {
    forall k: nat | k < 8
      ensures ByteAt(SwapGroups(a, 8), j)[k] == ByteAt(a, if j % 2 == 0 then j + 1 else j - 1)[k]
    {
      assert (8 * j + k) / 8 == j;
      SwapAt(a, 8, 8 * j + k);
    }
  }

  function PairsSwapped(a: Word): Word {
    a[8..16] + a[0..8] + a[24..32] + a[16..24] + a[40..48] + a[32..40] + a[56..64] + a[48..56]
  }

  lemma PairsSwappedByte(a: Word, j: nat)
    requires j < 8
    ensures ByteAt(PairsSwapped(a), j) == ByteAt(a, if j % 2 == 0 then j + 1 else j - 1)
  {
  }

  lemma SwapBytes(a: Word)
    ensures SwapGroups(a, 8) == PairsSwapped(a)
  {
    forall j: nat | j < 8
      ensures ByteAt(SwapGroups(a, 8), j) == ByteAt(PairsSwapped(a), j)
    {
      SwapByte(a, j);
      PairsSwappedByte(a, j);
    }
    SameBytes(SwapGroups(a, 8), PairsSwapped(a));
  }

  lemma SwapPairs(a: Word)
    ensures SwapGroups(a, 16) == a[16..32] + a[0..16] + a[48..64] + a[32..48]
  {
    var r := a[16..32] + a[0..16] + a[48..64] + a[32..48];
    forall i: nat | i < 64
      ensures SwapGroups(a, 16)[i] == r[i]
    {
      SwapAt(a, 16, i);
    }
  }

  lemma SwapHalves(b: Word)
    ensures Or(Shr(b, 32), Shl(b, 32)) == b[32..64] + b[0..32]
  {
  }

  /** The portable rev8 (swap bytes, pairs of bytes, halves) is the byte swap. */
  lemma PortableRev8(a: Word)
    ensures var b := SwapGroups(SwapGroups(a, 8), 16); Or(Shr(b, 32), Shl(b, 32)) == Rev8(a)
  {
    SwapBytes(a);
    var p := PairsSwapped(a);
    SwapPairs(p);
    var b: Word := p[16..32] + p[0..16] + p[48..64] + p[32..48];
    SwapHalves(b);
    assert b[32..64] == p[48..64] + p[32..48] && b[0..32] == p[16..32] + p[0..16];
    assert p[48..64] == a[56..64] + a[48..56] && p[32..48] == a[40..48] + a[32..40];
    assert p[16..32] == a[24..32] + a[16..24] && p[0..16] == a[8..16] + a[0..8];
  }

  lemma Rev8Involution(a: Word)
    ensures Rev8(Rev8(a)) == a
  {
    forall j: nat | j < 8 ensures ByteAt(Rev8(Rev8(a)), j) == ByteAt(a, j) {
      Rev8Byte(Rev8(a), j);
      Rev8Byte(a, 7 - j);
    }
    SameBytes(Rev8(Rev8(a)), a);
  }

  lemma SameBytes(a: Word, b: Word)
    requires forall j: nat :: j < 8 ==> ByteAt(a, j) == ByteAt(b, j)
    ensures a == b
  {
    forall i: nat | i < 64 ensures a[i] == b[i] {
      assert ByteAt(a, i / 8)[i % 8] == ByteAt(b, i / 8)[i % 8];
    }
  }

  lemma XorByte(a: Word, b: Word, j: nat)
    requires j < 8
    ensures ByteAt(Xor(a, b), j) == Xor(ByteAt(a, j), ByteAt(b, j))
  {
  }

  lemma Rev8Linear(a: Word, b: Word)
    ensures Rev8(Xor(a, b)) == Xor(Rev8(a), Rev8(b))
  {
    forall j: nat | j < 8
      ensures ByteAt(Rev8(Xor(a, b)), j) == ByteAt(Xor(Rev8(a), Rev8(b)), j)
    {
      Rev8Byte(Xor(a, b), j);
      XorByte(a, b, 7 - j);
      Rev8Byte(a, j);
      Rev8Byte(b, j);
      XorByte(Rev8(a), Rev8(b), j);
    }
    SameBytes(Rev8(Xor(a, b)), Xor(Rev8(a), Rev8(b)));
  }

  lemma Rev8Byte(a: Word, j: nat)
    requires j < 8
    ensures ByteAt(Rev8(a), j) == ByteAt(a, 7 - j)
  {
  }

  lemma ShrByte(a: Word, j: nat)
    requires j < 8
    ensures ByteAt(Shr(a, 8), j) == if j == 7 then Zeros(8) else ByteAt(a, j + 1)
  {
  }

  lemma ShlByte(a: Word, j: nat)
    requires j < 8
    ensures ByteAt(Shl(a, 8), j) == if j == 0 then Zeros(8) else ByteAt(a, j - 1)
  {
  }

  lemma Rev8Shift(a: Word)
    ensures Rev8(Shr(a, 8)) == Shl(Rev8(a), 8)
  {
    forall j: nat | j < 8
      ensures ByteAt(Rev8(Shr(a, 8)), j) == ByteAt(Shl(Rev8(a), 8), j)
    {
      Rev8Byte(Shr(a, 8), j);
      ShrByte(a, 7 - j);
      ShlByte(Rev8(a), j);
      if j > 0 {
        Rev8Byte(a, j - 1);
      }
    }
    SameBytes(Rev8(Shr(a, 8)), Shl(Rev8(a), 8));
  }

  // ----- the tables

  ghost predicate BigTable(g: Word, table: array2<Word>)
    reads table
  {
    && table.Length0 == 8 && table.Length1 == 256
    && forall k, n :: 0 <= k < 8 && 0 <= n < 256 ==> table[k, n] == Rev8(Slice(g, k, ToBits(n, 8)))
  }

  // One slice of the tables.
  method ReverseSlice(table: array2<Word>, k: nat)
    requires table.Length0 == 8 && table.Length1 == 256 && k < 8
    modifies table
    ensures forall j, m :: 0 <= j < 8 && 0 <= m < 256 && j != k ==> table[j, m] == old(table[j, m])
    ensures forall m :: 0 <= m < 256 ==> table[k, m] == Rev8(old(table[k, m]))
  {
    for n := 0 to 256
      invariant forall j, m :: 0 <= j < 8 && 0 <= m < 256 && (j != k || m >= n) ==> table[j, m] == old(table[j, m])
      invariant forall m :: 0 <= m < n ==> table[k, m] == Rev8(old(table[k, m]))
    {
      table[k, n] := Rev8(table[k, n]);
    }
  }

  /** crcspeed64big_init: the little-endian tables, entry by entry byte-reversed. */
  method InitBig(g: Word, table: array2<Word>)
    requires table.Length0 == 8 && table.Length1 == 256
    modifies table
    ensures BigTable(g, table)
  {
    InitLittle(g, table);
    for k := 0 to 8
      invariant forall j, m :: 0 <= j < k && 0 <= m < 256 ==> table[j, m] == Rev8(Slice(g, j, ToBits(m, 8)))
      invariant forall j, m :: k <= j < 8 && 0 <= m < 256 ==> table[j, m] == Slice(g, j, ToBits(m, 8))
    {
      ReverseSlice(table, k);
    }
  }

  lemma LookupBig(g: Word, table: array2<Word>, k: nat, b: Bits)
    requires BigTable(g, table) && k < 8 && |b| == 8
    ensures FromBits(b) < 256 && table[k, FromBits(b)] == Rev8(Slice(g, k, b))
  {
    PowersOfTwo();
    FromToBits(b);
  }

  // ----- the routine

  // Eight bytes read as one big-endian word.
  function LoadBig(bytes: seq<Byte>): Word
    requires |bytes| == 8
  {
    Rev8(LoadLittle(bytes))
  }

  // The bytes up to the first aligned one.
  method UnalignedBig(g: Word, table: array2<Word>, reached: Word, buf: seq<Byte>, address: nat, ghost init: Word)
      returns (crc: Word, next: nat)
    requires BigTable(g, table) && reached == Rev8(BitwiseCrc(g, init, []))
    ensures next <= |buf| && crc == Rev8(BitwiseCrc(g, init, buf[..next]))
  {
    crc, next := reached, 0;
    assert buf[..0] == [];
    while next < |buf| && (address + next) % 8 != 0
      invariant 0 <= next <= |buf|
      invariant crc == Rev8(BitwiseCrc(g, init, buf[..next]))
    {
      ByteOn(g, init, buf, next);
      crc := OneByteBig(g, table, crc, buf[next], BitwiseCrc(g, init, buf[..next]));
      next := next + 1;
    }
  }

  /** crcspeed64big computes the same CRC as crcspeed64little, on every input. */
  method Crcspeed64Big(g: Word, table: array2<Word>, start: Word, buf: seq<Byte>, address: nat)
      returns (r: Word)
    requires BigTable(g, table)
    ensures r == BitwiseCrc(g, Mirror(start), buf)
  {
    ghost var init: Word := Mirror(start);
    NothingRead(g, start);
    var crc, next := UnalignedBig(g, table, Rev8(start), buf, address, init);
    crc := AlignedBig(g, table, crc, buf, next, init);
    Rev8Involution(BitwiseCrc(g, init, buf));
    r := Rev8(crc);
  }

  method AlignedBig(g: Word, table: array2<Word>, reached: Word, buf: seq<Byte>, from: nat, ghost init: Word)
      returns (crc: Word)
    requires BigTable(g, table) && from <= |buf|
    requires reached == Rev8(BitwiseCrc(g, init, buf[..from]))
    ensures crc == Rev8(BitwiseCrc(g, init, buf))
  {
    crc := reached;
    var next := from;
    while |buf| - next >= 8
      invariant 0 <= next <= |buf|
      invariant crc == Rev8(BitwiseCrc(g, init, buf[..next]))
    {
      WordAdvance(g, init, buf, next);
      crc := OneWordBig(g, table, crc, buf[next..next + 8], BitwiseCrc(g, init, buf[..next]));
      next := next + 8;
    }
    while next < |buf|
      invariant 0 <= next <= |buf|
      invariant crc == Rev8(BitwiseCrc(g, init, buf[..next]))
    {
      ByteOn(g, init, buf, next);
      crc := OneByteBig(g, table, crc, buf[next], BitwiseCrc(g, init, buf[..next]));
      next := next + 1;
    }
    assert buf[..next] == buf;
  }

  method OneWordBig(g: Word, table: array2<Word>, crc: Word, bytes: seq<Byte>, ghost little: Word) returns (r: Word)
    requires BigTable(g, table) && |bytes| == 8 && crc == Rev8(little)
    ensures r == Rev8(Steps(g, 64, Xor(little, LoadLittle(bytes))))
  {
    Rev8Linear(little, LoadLittle(bytes));
    r := Xor(crc, LoadBig(bytes));
    r := SlicedBig(g, table, r, Xor(little, LoadLittle(bytes)));
  }

  method OneByteBig(g: Word, table: array2<Word>, crc: Word, byte: Byte, ghost little: Word) returns (r: Word)
    requires BigTable(g, table) && crc == Rev8(little)
    ensures r == Rev8(Steps(g, 8, Xor(little, Pad(ToBits(byte, 8), 64))))
  {
    var b := ToBits(byte, 8);
    var index := Xor(ByteAt(crc, 7), b);
    LookupBig(g, table, 0, index);
    OneByteSwapped(g, little, b);
    r := Xor(table[0, FromBits(index)], Shl(crc, 8));
  }

  lemma OneByteSwapped(g: Word, little: Word, b: Bits)
    requires |b| == 8
    ensures Xor(Rev8(Slice(g, 0, Xor(ByteAt(Rev8(little), 7), b))), Shl(Rev8(little), 8))
         == Rev8(Steps(g, 8, Xor(little, Pad(b, 64))))
  {
    ByteStep(g, little, b);
    Rev8Byte(little, 7);
    assert Xor(little, Pad(b, 64))[..8] == Xor(ByteAt(little, 0), b);
    Rev8Shift(little);
    Rev8Linear(Slice(g, 0, Xor(ByteAt(little, 0), b)), Shr(little, 8));
  }

  method SlicedBig(g: Word, table: array2<Word>, crc: Word, ghost little: Word) returns (r: Word)
    requires BigTable(g, table) && crc == Rev8(little)
    ensures r == Rev8(Steps(g, 64, little))
  {
    forall k: nat | k < 8
      ensures FromBits(ByteAt(crc, k)) < 256
      ensures table[k, FromBits(ByteAt(crc, k))] == Rev8(Slice(g, k, ByteAt(little, 7 - k)))
    {
      Rev8Byte(little, k);
      LookupBig(g, table, k, ByteAt(crc, k));
    }
    r := Xor(Xor(Xor(Xor(Xor(Xor(Xor(
           table[0, FromBits(ByteAt(crc, 0))], table[1, FromBits(ByteAt(crc, 1))]),
           table[2, FromBits(ByteAt(crc, 2))]), table[3, FromBits(ByteAt(crc, 3))]),
           table[4, FromBits(ByteAt(crc, 4))]), table[5, FromBits(ByteAt(crc, 5))]),
           table[6, FromBits(ByteAt(crc, 6))]), table[7, FromBits(ByteAt(crc, 7))]);
    WordStep(g, little);
    Rev8Sum(Slice(g, 7, ByteAt(little, 0)), Slice(g, 6, ByteAt(little, 1)), Slice(g, 5, ByteAt(little, 2)),
            Slice(g, 4, ByteAt(little, 3)), Slice(g, 3, ByteAt(little, 4)), Slice(g, 2, ByteAt(little, 5)),
            Slice(g, 1, ByteAt(little, 6)), Slice(g, 0, ByteAt(little, 7)));
  }

  lemma Rev8Sum(a: Word, b: Word, c: Word, d: Word, e: Word, f: Word, h: Word, i: Word)
    ensures Rev8(Xor(Xor(Xor(Xor(Xor(Xor(Xor(a, b), c), d), e), f), h), i))
         == Xor(Xor(Xor(Xor(Xor(Xor(Xor(Rev8(i), Rev8(h)), Rev8(f)), Rev8(e)), Rev8(d)), Rev8(c)), Rev8(b)), Rev8(a))
  {
    Rev8Linear(Xor(Xor(Xor(Xor(Xor(Xor(a, b), c), d), e), f), h), i);
    Rev8Linear(Xor(Xor(Xor(Xor(Xor(a, b), c), d), e), f), h);
    Rev8Linear(Xor(Xor(Xor(Xor(a, b), c), d), e), f);
    Rev8Linear(Xor(Xor(Xor(a, b), c), d), e);
    Rev8Linear(Xor(Xor(a, b), c), d);
    Rev8Linear(Xor(a, b), c);
    Rev8Linear(a, b);
    XorReversed(Rev8(a), Rev8(b), Rev8(c), Rev8(d), Rev8(e), Rev8(f), Rev8(h), Rev8(i));
  }

  lemma XorReversed(a: Word, b: Word, c: Word, d: Word, e: Word, f: Word, h: Word, i: Word)
    ensures Xor(Xor(Xor(Xor(Xor(Xor(Xor(a, b), c), d), e), f), h), i)
         == Xor(Xor(Xor(Xor(Xor(Xor(Xor(i, h), f), e), d), c), b), a)
  {
  }
}
