/** redisBitpos and BITPOS: the first bit of a kind, skipping whole words. */
module BitopsPos {
  import opened BitStrings
  import opened Bitmap

  /** The least position from lo up to hi that holds this bit, or -1. */
  function Find(f: nat -> bool, lo: nat, hi: nat, bit: bool): int
    decreases hi - lo
  {
    if lo >= hi then -1 else if f(lo) == bit then lo else Find(f, lo + 1, hi, bit)
  }

  lemma {:induction false} FindIsFirst(f: nat -> bool, lo: nat, hi: nat, bit: bool)
    ensures var r := Find(f, lo, hi, bit);
      if r == -1 then forall i :: lo <= i < hi ==> f(i) != bit
      else lo <= r < hi && f(r) == bit && forall i :: lo <= i < r ==> f(i) != bit
    decreases hi - lo
  {
    if lo < hi && f(lo) != bit {
      FindIsFirst(f, lo + 1, hi, bit);
    }
  }

  lemma {:induction false} FirstIsFind(f: nat -> bool, lo: nat, hi: nat, bit: bool, r: nat)
    requires lo <= r < hi && f(r) == bit && forall i :: lo <= i < r ==> f(i) != bit
    ensures Find(f, lo, hi, bit) == r
    decreases r - lo
  {
    if lo < r {
      FirstIsFind(f, lo + 1, hi, bit, r);
    }
  }

  lemma {:induction false} NoneIsFind(f: nat -> bool, lo: nat, hi: nat, bit: bool)
    requires forall i :: lo <= i < hi ==> f(i) != bit
    ensures Find(f, lo, hi, bit) == -1
    decreases hi - lo
  {
    if lo < hi {
      NoneIsFind(f, lo + 1, hi, bit);
    }
  }

  lemma {:induction false} FindSplit(f: nat -> bool, lo: nat, mid: nat, hi: nat, bit: bool)
    requires lo <= mid <= hi
    ensures var r := Find(f, lo, mid, bit); Find(f, lo, hi, bit) == if r != -1 then r else Find(f, mid, hi, bit)
    decreases mid - lo
  {
    if lo < mid {
      FindSplit(f, lo + 1, mid, hi, bit);
    }
  }

  lemma {:induction false} FindShift(f: nat -> bool, g: nat -> bool, lo: nat, hi: nat, d: nat, bit: bool)
    requires forall i {:trigger f(i)} :: lo <= i < hi ==> f(i) == g(i + d)
    ensures var r := Find(f, lo, hi, bit); Find(g, lo + d, hi + d, bit) == if r == -1 then -1 else r + d
    decreases hi - lo
  {
    if lo < hi {
      FindShift(f, g, lo + 1, hi, d, bit);
    }
  }

  // ----- redisBitpos

  // What redisBitpos returns: past n bytes there are only zeros.
  function Padded(found: int, n: nat, bit: bool): int {
    if found != -1 || bit then found else 8 * n
  }

  // UCHAR_MAX or 0
  function SkipByte(bit: bool): (b: Byte)
    ensures forall i :: 0 <= i < 8 ==> b[i] == !bit
  {
    seq(8, _ => !bit)
  }

  predicate Skipped(s: seq<Byte>, lo: nat, hi: nat, bit: bool)
    requires lo <= hi <= |s|
  {
    forall i :: lo <= i < hi ==> s[i] == SkipByte(bit)
  }

  lemma SkippedBits(s: seq<Byte>, n: nat, bit: bool)
    requires n <= |s| && Skipped(s, 0, n, bit)
    ensures forall i :: 0 <= i < 8 * n ==> BitsOf(s)(i) != bit
  {
  }

  method SkipUnaligned(addr: nat, s: seq<Byte>, bit: bool) returns (c: nat, found: bool)
    ensures c <= |s| && Skipped(s, 0, c, bit)
    ensures found ==> c < |s| && s[c] != SkipByte(bit)
  {
    c, found := 0, false;
    while (addr + c) % 8 != 0 && c < |s|
      invariant c <= |s| && Skipped(s, 0, c, bit)
      decreases |s| - c
    {
      if s[c] != SkipByte(bit) {
        return c, true;
      }
      c := c + 1;
    }
  }

  method SkipWords(s: seq<Byte>, from: nat, bit: bool) returns (c: nat)
    requires from <= |s| && Skipped(s, 0, from, bit)
    ensures c <= |s| && Skipped(s, 0, c, bit)
    ensures |s| - c < 8 || exists i :: c <= i < c + 8 && s[i] != SkipByte(bit)
  {
    c := from;
    var skip := seq(8, _ => SkipByte(bit));
    while |s| - c >= 8
      invariant c <= |s| && Skipped(s, 0, c, bit)
    {
      if s[c..c + 8] != skip {
        assert exists i :: 0 <= i < 8 && s[c..c + 8][i] != skip[i];
        var i :| 0 <= i < 8 && s[c..c + 8][i] != skip[i];
        assert s[c + i] != SkipByte(bit);
        return;
      }
      forall i | c <= i < c + 8
        ensures s[i] == SkipByte(bit)
      {
        assert s[i] == s[c..c + 8][i - c];
      }
      c := c + 8;
    }
  }

  lemma ByteAt(s: seq<Byte>, i: nat, k: nat)
    requires k < 8
    ensures BitZ(s, 8 * i + k) == (i < |s| && s[i][k])
  {
    assert (8 * i + k) / 8 == i && (8 * i + k) % 8 == k;
  }

  /** Loading up to eight bytes, the first one most significant, with zeros on the right. */
  method LoadWord(s: seq<Byte>, from: nat) returns (word: Bits)
    requires from <= |s|
    ensures |word| == 64 && forall j :: 0 <= j < 64 ==> word[j] == BitZ(s, 8 * from + j)
  {
    word := Zeros(64);
    var c := from;
    for j := 0 to 8
      invariant |word| == 64 && c == (if from + j < |s| then from + j else |s|)
      invariant forall t :: 64 - 8 * j <= t < 64 ==> word[t] == BitZ(s, 8 * from + t - (64 - 8 * j))
    {
      var byte := if c < |s| then s[c] else Zeros(8);
      ghost var last := word;
      word := word[8..] + byte;
      forall t | 64 - 8 * (j + 1) <= t < 64
        ensures word[t] == BitZ(s, 8 * from + t - (64 - 8 * (j + 1)))
      {
        if t < 56 {
          assert word[t] == last[t + 8];
        } else {
          ByteAt(s, from + j, t - 56);
          assert 8 * (from + j) + (t - 56) == 8 * from + t - (64 - 8 * (j + 1));
        }
      }
      if c < |s| {
        c := c + 1;
      }
    }
  }

  /** redisBitpos; the panic at its end is never reached. */
  method RedisBitpos(addr: nat, s: seq<Byte>, bit: bool) returns (pos: int, panicked: bool)
    ensures !panicked && pos == Padded(Find(BitsOf(s), 0, 8 * |s|, bit), |s|, bit)
  {
    var c, found := SkipUnaligned(addr, s, bit);
    if !found {
      c := SkipWords(s, c, bit);
    }
    var word := LoadWord(s, c);
    SkippedBits(s, c, bit);
    ghost var f := BitsOf(s);
    if bit && word == Zeros(64) {
      NothingLeft(s, c, word);
      NoneIsFind(f, 0, 8 * |s|, bit);
      return -1, false;
    }
    SomeBit(s, c, bit, word);
    var j := 0;
    while j < 64
      invariant 0 <= j <= 64 && forall i :: 0 <= i < j ==> word[i] != bit
    {
      if word[j] == bit {
        FoundBit(s, c, bit, word, j);
        return 8 * c + j, false;
      }
      j := j + 1;
    }
    return 0, true;
  }

  // All bytes that are left fit in the word.
  ghost predicate Stopped(s: seq<Byte>, c: nat, bit: bool) {
    c <= |s| && Skipped(s, 0, c, bit) && (|s| - c < 8 || exists i :: c <= i < c + 8 && s[i] != SkipByte(bit))
  }

  ghost predicate Loaded(s: seq<Byte>, c: nat, word: Bits) {
    |word| == 64 && forall j :: 0 <= j < 64 ==> word[j] == BitZ(s, 8 * c + j)
  }

  lemma DifferentByte(b: Byte, bit: bool) returns (k: nat)
    requires b != SkipByte(bit)
    ensures k < 8 && b[k] == bit
  {
    k :| 0 <= k < 8 && b[k] != SkipByte(bit)[k];
  }

  lemma NothingLeft(s: seq<Byte>, c: nat, word: Bits)
    requires Stopped(s, c, true) && Loaded(s, c, word) && word == Zeros(64)
    ensures forall i :: 0 <= i < 8 * |s| ==> !BitsOf(s)(i)
  {
    forall i | c <= i < c + 8 && i < |s|
      ensures s[i] == SkipByte(true)
    {
      forall k | 0 <= k < 8
        ensures !s[i][k]
      {
        ByteAt(s, i, k);
        assert word[8 * (i - c) + k] == BitZ(s, 8 * i + k);
      }
    }
    SkippedBits(s, c, true);
    forall i | 8 * c <= i < 8 * |s|
      ensures !BitsOf(s)(i)
    {
      assert word[i - 8 * c] == BitZ(s, i);
    }
  }

  // The word holds the bit, so that the scan ends before the panic.
  lemma SomeBit(s: seq<Byte>, c: nat, bit: bool, word: Bits)
    requires Stopped(s, c, bit) && Loaded(s, c, word) && !(bit && word == Zeros(64))
    ensures exists j :: 0 <= j < 64 && word[j] == bit
  {
    if bit {
      assert exists j :: 0 <= j < 64 && word[j] != Zeros(64)[j];
    } else if |s| - c >= 8 {
      var i :| c <= i < c + 8 && s[i] != SkipByte(bit);
      var k := DifferentByte(s[i], bit);
      assert word[8 * (i - c) + k] == BitZ(s, 8 * i + k);
    } else {
      assert word[63] == BitZ(s, 8 * c + 63);
    }
  }

  lemma FoundBit(s: seq<Byte>, c: nat, bit: bool, word: Bits, j: nat)
    requires Stopped(s, c, bit) && Loaded(s, c, word) && j < 64 && word[j] == bit
    requires forall i :: 0 <= i < j ==> word[i] != bit
    ensures 8 * c + j == Padded(Find(BitsOf(s), 0, 8 * |s|, bit), |s|, bit)
  {
    SkippedBits(s, c, bit);
    var f := BitsOf(s);
    assert !f(8 * |s|);
    forall i | 0 <= i < 8 * c + j
      ensures f(i) != bit
    {
      if i >= 8 * c {
        assert word[i - 8 * c] == BitZ(s, i);
      }
    }
    if 8 * c + j < 8 * |s| {
      FirstIsFind(f, 0, 8 * |s|, bit, 8 * c + j);
    } else {
      NoneIsFind(f, 0, 8 * |s|, bit);
    }
  }
}
