/** The CRC of crc64.c: the bit-by-bit routine, what it computes (the remainder of a polynomial
    division), and the mirrored register that the table-driven routines run on. */
module Crc64 {
  import opened BitStrings
  import opened Equality

  type Byte = n: nat | n < 256

  const POLY: Word := ToBits(0xad93d23594c935a9, 64)

  // The bits of a message in the order the register takes them.
  function MessageBits(data: seq<Byte>): (b: Bits)
    ensures |b| == 8 * |data|
  {
    if data == [] then [] else ToBits(data[0], 8) + MessageBits(data[1..])
  }

  // ----- the register

  /** Shift out the top bit, add the message bit to it, subtract the polynomial if that is one. */
  function FeedBit(g: Word, crc: Word, bit: bool): Word {
    if crc[63] != bit then Xor(Shl(crc, 1), g) else Shl(crc, 1)
  }

  function Feed(g: Word, crc: Word, bits: Bits): Word
    decreases |bits|
  {
    if bits == [] then crc else Feed(g, FeedBit(g, crc, bits[0]), bits[1..])
  }

  function BitwiseCrc(g: Word, crc: Word, data: seq<Byte>): Word {
    Mirror(Feed(g, crc, MessageBits(data)))
  }

  lemma {:induction false} FeedAppend(g: Word, crc: Word, a: Bits, b: Bits)
    ensures Feed(g, crc, a + b) == Feed(g, Feed(g, crc, a), b)
    decreases |a|
  {
    if a == [] {
      assert a + b == b;
    } else {
      assert (a + b)[1..] == a[1..] + b;
      FeedAppend(g, FeedBit(g, crc, a[0]), a[1..], b);
    }
  }

  lemma {:induction false} MessageBitsAppend(a: seq<Byte>, b: seq<Byte>)
    ensures MessageBits(a + b) == MessageBits(a) + MessageBits(b)
  {
    if a == [] {
      assert a + b == b;
    } else {
      assert (a + b)[1..] == a[1..] + b;
      MessageBitsAppend(a[1..], b);
    }
  }

  /** crc_reflect: reverses the low dataLen bits of a word. */
  method CrcReflect(data: Word, dataLen: nat) returns (ret: Word)
    requires 1 <= dataLen <= 64
    ensures ret == Pad(Mirror(data[..dataLen]), 64)
  {
    var rest := data;
    ret := Pad(rest[..1], 64);
    var i := 1;
    while i < dataLen
      invariant 1 <= i <= dataLen
      invariant rest == Shr(data, i - 1)
      invariant ret == Pad(Mirror(data[..i]), 64)
    {
      rest := Shr(rest, 1);
      assert rest == Shr(data, i) && rest[0] == data[i];
      ret := [rest[0]] + Shl(ret, 1)[1..];
      assert data[..i + 1] == data[..i] + [data[i]];
      i := i + 1;
    }
  }

  /** _crc64: the generated bit-by-bit routine, for the generator g (the source fixes it to POLY). */
  method Crc64BitByBit(g: Word, crc: Word, data: seq<Byte>) returns (r: Word)
    ensures r == BitwiseCrc(g, crc, data)
  {
    var reg := crc;
    var offset := 0;
    while offset < |data|
      invariant 0 <= offset <= |data|
      invariant Feed(g, crc, MessageBits(data)) == Feed(g, reg, MessageBits(data[offset..]))
    {
      var c := ToBits(data[offset], 8);
      ghost var rest := MessageBits(data[offset + 1..]);
      assert data[offset..][1..] == data[offset + 1..];
      var i := 0;
      while i < 8
        invariant 0 <= i <= 8
        invariant Feed(g, crc, MessageBits(data)) == Feed(g, reg, c[i..] + rest)
      {
        assert (c[i..] + rest)[1..] == c[i + 1..] + rest;
        var bit := reg[63];
        if c[i] {
          bit := !bit;
        }
        reg := Shl(reg, 1);
        if bit {
          reg := Xor(reg, g);
        }
        i := i + 1;
      }
      assert c[8..] + rest == rest;
      offset := offset + 1;
    }
    r := CrcReflect(reg, 64);
    assert reg[..64] == reg;
  }

  // ----- what the register holds: the remainder of a schoolbook division

  /** Long division of a polynomial by x^64 + g. The dividend is written with the highest
      power first; each round cancels its leading term and drops it. */
  function Remainder(g: Word, dividend: Bits): (r: Word)
    requires |dividend| >= 64
    decreases |dividend|
  {
    if |dividend| == 64 then Mirror(dividend)
    else if !dividend[0] then Remainder(g, dividend[1..])
    else
      var head: Bits := dividend[1..65];
      Remainder(g, Xor(head, Mirror(g)) + dividend[65..])
  }

  // crc * x^|bits| + bits * x^64, highest power first.
  function Dividend(crc: Word, bits: Bits): (d: Bits)
    ensures |d| == |bits| + 64
  {
    Xor(Mirror(crc) + Zeros(|bits|), bits + Zeros(64))
  }

  /** Whatever the start value and the message, the register ends with the remainder of
      (crc * x^n + message * x^64) by the generator polynomial. */
  lemma {:induction false} FeedIsRemainder(g: Word, crc: Word, bits: Bits)
    ensures Feed(g, crc, bits) == Remainder(g, Dividend(crc, bits))
    decreases |bits|
  {
    var d := Dividend(crc, bits);
    if bits == [] {
      assert d == Mirror(crc);
      assert Mirror(Mirror(crc)) == crc;
    } else {
      var next := FeedBit(g, crc, bits[0]);
      FeedIsRemainder(g, next, bits[1..]);
      DividendStep(g, crc, bits);
    }
  }

  lemma DividendStep(g: Word, crc: Word, bits: Bits)
    requires bits != []
    ensures Remainder(g, Dividend(crc, bits)) == Remainder(g, Dividend(FeedBit(g, crc, bits[0]), bits[1..]))
  {
    if crc[63] != bits[0] {
      DividendCancels(g, crc, bits);
    } else {
      DividendShifts(crc, bits);
    }
  }

  lemma DividendShifts(crc: Word, bits: Bits)
    requires bits != [] && crc[63] == bits[0]
    ensures !Dividend(crc, bits)[0]
    ensures Dividend(crc, bits)[1..] == Dividend(Shl(crc, 1), bits[1..])
  {
  }

  lemma DividendCancels(g: Word, crc: Word, bits: Bits)
    requires bits != [] && crc[63] != bits[0]
    ensures Dividend(crc, bits)[0]
    ensures Xor(Dividend(crc, bits)[1..65], Mirror(g)) + Dividend(crc, bits)[65..]
         == Dividend(Xor(Shl(crc, 1), g), bits[1..])
  {
    var d := Dividend(crc, bits);
    DividendAt(crc, bits, 0);
    forall i: nat | i < |bits| + 63
      ensures (Xor(d[1..65], Mirror(g)) + d[65..])[i] == Dividend(Xor(Shl(crc, 1), g), bits[1..])[i]
    {
      DividendAt(crc, bits, i + 1);
      DividendAt(Xor(Shl(crc, 1), g), bits[1..], i);
      if i < 63 {
        assert Shl(crc, 1)[63 - i] == crc[62 - i];
      }
    }
  }

  // One coefficient of the dividend.
  lemma DividendAt(crc: Word, bits: Bits, k: nat)
    requires k < |bits| + 64
    ensures Dividend(crc, bits)[k] == ((k < 64 && crc[63 - k]) != (k < |bits| && bits[k]))
  {
    assert (Mirror(crc) + Zeros(|bits|))[k] == (k < 64 && crc[63 - k]);
    assert (bits + Zeros(64))[k] == (k < |bits| && bits[k]);
  }

  // ----- the mirrored register

  function Step(g: Word, x: Word): Word {
    if x[0] then Xor(Shr(x, 1), Mirror(g)) else Shr(x, 1)
  }

  function Steps(g: Word, n: nat, x: Word): Word {
    if n == 0 then x else Steps(g, n - 1, Step(g, x))
  }

  lemma StepLinear(g: Word, x: Word, y: Word)
    ensures Step(g, Xor(x, y)) == Xor(Step(g, x), Step(g, y))
  {
  }

  lemma {:induction false} StepsLinear(g: Word, n: nat, x: Word, y: Word)
    ensures Same(Steps(g, n, Xor(x, y)), Xor(Steps(g, n, x), Steps(g, n, y)))
  {
    if n > 0 {
      StepLinear(g, x, y);
      StepsLinear(g, n - 1, Step(g, x), Step(g, y));
    }
  }

  lemma {:induction false} StepsCompose(g: Word, m: nat, n: nat, x: Word)
    ensures Same(Steps(g, m + n, x), Steps(g, n, Steps(g, m, x)))
  {
    if m > 0 {
      StepsCompose(g, m - 1, n, Step(g, x));
    }
  }

  // While the bits shifted out are zero, stepping is only shifting.
  lemma {:induction false} StepsShift(g: Word, k: nat, x: Word)
    requires k <= 64 && forall i :: 0 <= i < k ==> !x[i]
    ensures Steps(g, k, x) == Shr(x, k)
  {
    if k > 0 {
      StepsShift(g, k - 1, Step(g, x));
      assert Shr(Shr(x, 1), k - 1) == Shr(x, k);
    } else {
      assert Shr(x, 0) == x;
    }
  }

  /** Up to 64 message bits may be added to the low end of the mirrored register in one go. */
  lemma {:induction false} FeedMirrored(g: Word, crc: Word, bits: Bits)
    requires |bits| <= 64
    ensures Same(Mirror(Feed(g, crc, bits)), Steps(g, |bits|, Xor(Mirror(crc), Pad(bits, 64))))
    decreases |bits|
  {
    if bits == [] {
      assert Xor(Mirror(crc), Pad(bits, 64)) == Mirror(crc);
    } else {
      FeedMirrored(g, FeedBit(g, crc, bits[0]), bits[1..]);
      FeedFirst(g, crc, bits);
    }
  }

  lemma StepsFirst(g: Word, n: nat, x: Word, x': Word)
    requires n > 0 && Step(g, x) == x'
    ensures Steps(g, n, x) == Steps(g, n - 1, x')
  {
  }

  lemma FeedFirst(g: Word, crc: Word, bits: Bits)
    requires 1 <= |bits| <= 64
    ensures Same(Step(g, Xor(Mirror(crc), Pad(bits, 64))), Xor(Mirror(FeedBit(g, crc, bits[0])), Pad(bits[1..], 64)))
  {
    var low: Word := Pad([bits[0]], 64);
    var rest: Word := [false] + Pad(bits[1..], 63);
    FeedBitMirrored(g, crc, bits[0]);
    StepShiftsZero(g, Pad(bits[1..], 63));
    StepLinear(g, Xor(Mirror(crc), low), rest);
    XorAssociates(Mirror(crc), low, rest);
    PadSplits(bits);
  }

  lemma PadSplits(bits: Bits)
    requires 1 <= |bits| <= 64
    ensures Xor(Pad([bits[0]], 64), [false] + Pad(bits[1..], 63)) == Pad(bits, 64)
    ensures Pad(bits[1..], 63) + [false] == Pad(bits[1..], 64)
  {
  }

  lemma FeedBitMirrored(g: Word, crc: Word, bit: bool)
    ensures Mirror(FeedBit(g, crc, bit)) == Step(g, Xor(Mirror(crc), Pad([bit], 64)))
  {
    var x := Xor(Mirror(crc), Pad([bit], 64));
    assert x[0] == (crc[63] != bit);
    assert Shr(x, 1) == Mirror(Shl(crc, 1));
    assert Xor(Mirror(Shl(crc, 1)), Mirror(g)) == Mirror(Xor(Shl(crc, 1), g));
  }

  lemma StepShiftsZero(g: Word, high: Bits)
    requires |high| == 63
    ensures Step(g, [false] + high) == high + [false]
  {
    assert Zeros(1) == [false];
  }

  // ----- what a CRC is for

  lemma StepInjective(g: Word, x: Word, y: Word)
    requires g[0]
    ensures Step(g, x) == Step(g, y) ==> x == y
  {
    if Step(g, x) == Step(g, y) {
      assert Step(g, x)[63] == x[0] && Step(g, y)[63] == y[0];
      assert Shr(x, 1) == Shr(y, 1) by {
        if x[0] {
          XorUndo(Shr(x, 1), Mirror(g));
          XorUndo(Shr(y, 1), Mirror(g));
        }
      }
      assert x == [x[0]] + Shr(x, 1)[..63] && y == [y[0]] + Shr(y, 1)[..63];
    }
  }

  lemma XorUndo(a: Bits, b: Bits)
    requires |a| == |b|
    ensures Xor(Xor(a, b), b) == a
  {
  }

  lemma {:induction false} StepsInjective(g: Word, n: nat, x: Word, y: Word)
    requires g[0] && x != y
    ensures Steps(g, n, x) != Steps(g, n, y)
    decreases n
  {
    if n > 0 {
      StepInjective(g, x, y);
      StepsDiffer(g, n, x, y, Step(g, x), Step(g, y));
    }
  }

  lemma {:induction false} StepsDiffer(g: Word, n: nat, x: Word, y: Word, x': Word, y': Word)
    requires g[0] && n > 0 && x' == Step(g, x) && y' == Step(g, y) && x' != y'
    ensures Steps(g, n, x) != Steps(g, n, y)
    decreases n, 0
  {
    StepsFirst(g, n, x, x');
    StepsFirst(g, n, y, y');
    StepsInjective(g, n - 1, x', y');
  }

  lemma {:induction false} MessageBitsInjective(x: seq<Byte>, y: seq<Byte>)
    requires |x| == |y| && x != y
    ensures MessageBits(x) != MessageBits(y)
  {
    assert x == [x[0]] + x[1..] && y == [y[0]] + y[1..];
    if x[0] != y[0] {
      assert Pow2(4) == 16 && Pow2(8) == 256;
      ToFromBits(x[0], 8);
      ToFromBits(y[0], 8);
      assert MessageBits(x)[..8] == ToBits(x[0], 8) && MessageBits(y)[..8] == ToBits(y[0], 8);
    } else {
      MessageBitsInjective(x[1..], y[1..]);
      assert MessageBits(x)[8..] == MessageBits(x[1..]) && MessageBits(y)[8..] == MessageBits(y[1..]);
    }
  }

  // Different registers stay different over the same message.
  lemma {:induction false} FeedInjective(g: Word, a: Word, b: Word, bits: Bits)
    requires g[0] && a != b
    ensures Feed(g, a, bits) != Feed(g, b, bits)
    decreases |bits|
  {
    if bits != [] {
      var bit := bits[0];
      FeedBitMirrored(g, a, bit);
      FeedBitMirrored(g, b, bit);
      MirrorsDiffer(a, b, Pad([bit], 64));
      StepInjective(g, Xor(Mirror(a), Pad([bit], 64)), Xor(Mirror(b), Pad([bit], 64)));
      FeedInjective(g, FeedBit(g, a, bit), FeedBit(g, b, bit), bits[1..]);
    }
  }

  lemma MirrorsDiffer(a: Word, b: Word, c: Word)
    requires a != b
    ensures Mirror(a) != Mirror(b)
    ensures Xor(Mirror(a), c) != Xor(Mirror(b), c)
  {
    var i :| 0 <= i < 64 && a[i] != b[i];
    assert Mirror(a)[63 - i] != Mirror(b)[63 - i];
    assert Xor(Mirror(a), c)[63 - i] != Xor(Mirror(b), c)[63 - i];
  }

  /** Error detection: two messages of the same length that differ only inside a window of
      eight bytes never have the same CRC. */
  lemma BurstDetected(g: Word, crc: Word, before: seq<Byte>, x: seq<Byte>, y: seq<Byte>, after: seq<Byte>)
    requires g[0] && |x| == |y| <= 8 && x != y
    ensures BitwiseCrc(g, crc, before + x + after) != BitwiseCrc(g, crc, before + y + after)
  {
    var r := Feed(g, crc, MessageBits(before));
    var xs, ys := MessageBits(x), MessageBits(y);
    MessageBitsInjective(x, y);
    FeedMirrored(g, r, xs);
    FeedMirrored(g, r, ys);
    WindowsDiffer(Mirror(r), xs, ys);
    StepsInjective(g, |xs|, Xor(Mirror(r), Pad(xs, 64)), Xor(Mirror(r), Pad(ys, 64)));
    FeedInjective(g, Feed(g, r, xs), Feed(g, r, ys), MessageBits(after));
    FeedThree(g, crc, before, x, after);
    FeedThree(g, crc, before, y, after);
    MirrorsDiffer(Feed(g, Feed(g, r, xs), MessageBits(after)), Feed(g, Feed(g, r, ys), MessageBits(after)), r);
  }

  lemma WindowsDiffer(r: Word, xs: Bits, ys: Bits)
    requires |xs| == |ys| <= 64 && xs != ys
    ensures Xor(r, Pad(xs, 64)) != Xor(r, Pad(ys, 64))
  {
    var i :| 0 <= i < |xs| && xs[i] != ys[i];
    assert Xor(r, Pad(xs, 64))[i] != Xor(r, Pad(ys, 64))[i];
  }

  lemma FeedThree(g: Word, crc: Word, a: seq<Byte>, b: seq<Byte>, c: seq<Byte>)
    ensures Feed(g, crc, MessageBits(a + b + c))
         == Feed(g, Feed(g, Feed(g, crc, MessageBits(a)), MessageBits(b)), MessageBits(c))
  {
    MessageBitsAppend(a + b, c);
    MessageBitsAppend(a, b);
    FeedAppend(g, crc, MessageBits(a) + MessageBits(b), MessageBits(c));
    FeedAppend(g, crc, MessageBits(a), MessageBits(b));
  }

  /** The generator of crc64.c has the odd constant term that error detection needs. */
  lemma PolyDetectsBursts(crc: Word, before: seq<Byte>, x: seq<Byte>, y: seq<Byte>, after: seq<Byte>)
    requires |x| == |y| <= 8 && x != y
    ensures BitwiseCrc(POLY, crc, before + x + after) != BitwiseCrc(POLY, crc, before + y + after)
  {
    BurstDetected(POLY, crc, before, x, y, after);
  }

  // ----- the CRC of one byte gives the generator away

  lemma {:induction false} FeedZeros(g: Word, n: nat, bits: Bits)
    requires n <= |bits| && forall i :: 0 <= i < n ==> !bits[i]
    ensures Feed(g, Zeros(64), bits) == Feed(g, Zeros(64), bits[n..])
    decreases n
  {
    if n != 0 {
      assert Shl(Zeros(64), 1) == Zeros(64);
      FeedZeros(g, n - 1, bits[1..]);
      assert bits[1..][n - 1..] == bits[n..];
    }
  }

  /** The CRC of the byte 128, from a zero register, is the mirrored generator. */
  lemma GeneratorShows(g: Word)
    ensures BitwiseCrc(g, Zeros(64), [128]) == Mirror(g)
  {
    var bits := MessageBits([128]);
    TopBit(bits);
    FeedZeros(g, 7, bits);
    assert Shl(Zeros(64), 1) == Zeros(64);
    assert Xor(Zeros(64), g) == g;
  }

  lemma TopBit(bits: Bits)
    requires bits == MessageBits([128])
    ensures |bits| == 8 && bits[7..] == [true] && forall i :: 0 <= i < 7 ==> !bits[i]
  {
    assert bits == ToBits(128, 8);
  }

  /** A check value that only this generator has: read from its top bit, the CRC of the byte 128. */
  lemma CheckValue(g: Word)
    ensures FromBits(Mirror(BitwiseCrc(g, Zeros(64), [128]))) == 0xad93d23594c935a9 <==> g == POLY
  {
    GeneratorShows(g);
    assert Mirror(Mirror(g)) == g;
    FromToBits(g);
    Pow64(64);
    ToFromBits(0xad93d23594c935a9, 64);
  }
}
