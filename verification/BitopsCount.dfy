/** redisPopcount and BITCOUNT: the number of set bits, counted 28 bytes at a time. */
module BitopsCount {
  import opened BitStrings
  import opened Bitmap

  // ----- one word

  function W(v: bool): bv8 {
    if v then 1 else 0
  }

  function Number(b: Byte): bv32 {
    var n := (W(b[0]) << 7) | (W(b[1]) << 6) | (W(b[2]) << 5) | (W(b[3]) << 4)
             | (W(b[4]) << 3) | (W(b[5]) << 2) | (W(b[6]) << 1) | W(b[7]);
    n as bv32
  }

  // A 32-bit word read from memory, first byte lowest.
  function Load(b0: Byte, b1: Byte, b2: Byte, b3: Byte): bv32 {
    Number(b0) | (Number(b1) << 8) | (Number(b2) << 16) | (Number(b3) << 24)
  }

  function Pop(b: Byte): bv8 {
    W(b[0]) + W(b[1]) + W(b[2]) + W(b[3]) + W(b[4]) + W(b[5]) + W(b[6]) + W(b[7])
  }

  // What happens to one of the seven words before they are added.
  function Fold(x: bv32): bv32 {
    var a := x - ((x >> 1) & 0x55555555);
    var b := (a & 0x33333333) + ((a >> 2) & 0x33333333);
    (b + (b >> 4)) & 0x0F0F0F0F
  }

  lemma FoldLane0(b0: Byte, b1: Byte, b2: Byte, b3: Byte)
    ensures Fold(Load(b0, b1, b2, b3)) & 0xFF == Pop(b0) as bv32 && Pop(b0) <= 8
  {
  }

  lemma FoldLane1(b0: Byte, b1: Byte, b2: Byte, b3: Byte)
    ensures (Fold(Load(b0, b1, b2, b3)) >> 8) & 0xFF == Pop(b1) as bv32 && Pop(b1) <= 8
  {
  }

  lemma FoldLane2(b0: Byte, b1: Byte, b2: Byte, b3: Byte)
    ensures (Fold(Load(b0, b1, b2, b3)) >> 16) & 0xFF == Pop(b2) as bv32 && Pop(b2) <= 8
  {
  }

  lemma FoldLane3(b0: Byte, b1: Byte, b2: Byte, b3: Byte)
    ensures (Fold(Load(b0, b1, b2, b3)) >> 24) & 0xFF == Pop(b3) as bv32 && Pop(b3) <= 8
  {
  }

  lemma AddBit(x: bv8, v: bool, n: nat)
    requires x as int == n && n < 8
    ensures (x + W(v)) as int == n + One(v)
  {
  }

  lemma Widen(x: bv8)
    requires x <= 8
    ensures (x as bv32) as int == x as int
  {
  }

  lemma AddTwo(x: bv8, v: bool, u: bool, n: nat)
    requires x as int == n && n < 7
    ensures (x + W(v) + W(u)) as int == n + One(v) + One(u)
  {
    AddBit(x, v, n);
    AddBit(x + W(v), u, n + One(v));
  }

  lemma PopCounts(b: Byte)
    requires Pop(b) <= 8
    ensures (Pop(b) as bv32) as int == ByteCount(b)
  {
    PopIsCount(b);
    Widen(Pop(b));
  }

  lemma PopIsCount(b: Byte)
    ensures Pop(b) as int == ByteCount(b)
  {
    var x2 := W(b[0]) + W(b[1]);
    var x4 := x2 + W(b[2]) + W(b[3]);
    var x6 := x4 + W(b[4]) + W(b[5]);
    var n2 := One(b[0]) + One(b[1]);
    var n4 := n2 + One(b[2]) + One(b[3]);
    AddTwo(0, b[0], b[1], 0);
    AddTwo(x2, b[2], b[3], n2);
    AddTwo(x4, b[4], b[5], n4);
    AddTwo(x6, b[6], b[7], n4 + One(b[4]) + One(b[5]));
  }

  // ----- lanes: the four bytes of a word

  // No lane holds more than m.
  predicate Within(x: bv32, m: bv32) {
    x & 0xFF <= m && (x >> 8) & 0xFF <= m && (x >> 16) & 0xFF <= m && (x >> 24) & 0xFF <= m
  }

  // The lanes as numbers, lowest first.
  predicate Holds(x: bv32, n: seq<int>) {
    |n| == 4 && (x & 0xFF) as int == n[0] && ((x >> 8) & 0xFF) as int == n[1]
    && ((x >> 16) & 0xFF) as int == n[2] && ((x >> 24) & 0xFF) as int == n[3]
  }

  lemma LaneCounts(l: bv32, b: Byte)
    requires l == Pop(b) as bv32 && Pop(b) <= 8
    ensures l as int == ByteCount(b) && l <= 8
  {
    PopCounts(b);
  }

  // Each byte of a folded word, as a number.
  lemma FoldCounts0(b0: Byte, b1: Byte, b2: Byte, b3: Byte, x: bv32)
    requires x == Fold(Load(b0, b1, b2, b3))
    ensures (x & 0xFF) as int == ByteCount(b0) && x & 0xFF <= 8
  {
    FoldLane0(b0, b1, b2, b3);
    LaneCounts(x & 0xFF, b0);
  }

  lemma FoldCounts1(b0: Byte, b1: Byte, b2: Byte, b3: Byte, x: bv32)
    requires x == Fold(Load(b0, b1, b2, b3))
    ensures ((x >> 8) & 0xFF) as int == ByteCount(b1) && (x >> 8) & 0xFF <= 8
  {
    FoldLane1(b0, b1, b2, b3);
    LaneCounts((x >> 8) & 0xFF, b1);
  }

  lemma FoldCounts2(b0: Byte, b1: Byte, b2: Byte, b3: Byte, x: bv32)
    requires x == Fold(Load(b0, b1, b2, b3))
    ensures ((x >> 16) & 0xFF) as int == ByteCount(b2) && (x >> 16) & 0xFF <= 8
  {
    FoldLane2(b0, b1, b2, b3);
    LaneCounts((x >> 16) & 0xFF, b2);
  }

  lemma FoldCounts3(b0: Byte, b1: Byte, b2: Byte, b3: Byte, x: bv32)
    requires x == Fold(Load(b0, b1, b2, b3))
    ensures ((x >> 24) & 0xFF) as int == ByteCount(b3) && (x >> 24) & 0xFF <= 8
  {
    FoldLane3(b0, b1, b2, b3);
    LaneCounts((x >> 24) & 0xFF, b3);
  }

  /** Each byte of a folded word holds the number of bits set in that byte. */
  lemma FoldHolds(b0: Byte, b1: Byte, b2: Byte, b3: Byte, x: bv32)
    requires x == Fold(Load(b0, b1, b2, b3))
    ensures Holds(x, [ByteCount(b0), ByteCount(b1), ByteCount(b2), ByteCount(b3)]) && Within(x, 8)
  {
    FoldCounts0(b0, b1, b2, b3, x);
    FoldCounts1(b0, b1, b2, b3, x);
    FoldCounts2(b0, b1, b2, b3, x);
    FoldCounts3(b0, b1, b2, b3, x);
  }

  lemma SmallLanes(s: bv32)
    requires Within(s, 56)
    ensures s & 0xC0C0C0C0 == 0
  {
  }

  lemma TinyLanes(s: bv32)
    requires Within(s, 8)
    ensures s & 0xF0F0F0F0 == 0
  {
  }

  lemma LowLanes(x: bv32, y: bv32)
    requires x & 0xC0C0C0C0 == 0 && y & 0xF0F0F0F0 == 0
    ensures (x + y) & 0xFF == (x & 0xFF) + (y & 0xFF)
    ensures ((x + y) >> 8) & 0xFF == ((x >> 8) & 0xFF) + ((y >> 8) & 0xFF)
  {
  }

  lemma HighLanes(x: bv32, y: bv32)
    requires x & 0xC0C0C0C0 == 0 && y & 0xF0F0F0F0 == 0
    ensures ((x + y) >> 16) & 0xFF == ((x >> 16) & 0xFF) + ((y >> 16) & 0xFF)
    ensures ((x + y) >> 24) & 0xFF == ((x >> 24) & 0xFF) + ((y >> 24) & 0xFF)
  {
  }

  // num goes up by one from this word to the next.
  predicate GoesUp(num: bv32 -> nat, x: bv32) {
    x < 255 ==> num(x + 1) == num(x) + 1
  }

  lemma BackAndForth(x: bv32, y: bv32)
    requires x <= 168 && 0 < y <= 56
    ensures (y - 1) + 1 == y && (x + (y - 1)) + 1 == x + y && x + (y - 1) < 255
  {
  }

  lemma {:induction false} SumGoesUp(num: bv32 -> nat, x: bv32, y: bv32)
    requires (forall z :: GoesUp(num, z)) && num(0) == 0 && x <= 168 && y <= 56
    ensures num(x + y) == num(x) + num(y)
    decreases num(y)
  {
    if y == 0 {
      assert x + y == x;
    } else {
      BackAndForth(x, y);
      assert GoesUp(num, y - 1) && GoesUp(num, x + (y - 1));
      SumGoesUp(num, x, y - 1);
    }
  }

  lemma Increment(x: bv32)
    requires x < 255
    ensures (x + 1) as int == x as int + 1
  {
  }

  function Num(x: bv32): nat {
    x as nat
  }

  lemma NumGoesUp()
    ensures Num(0) == 0 && forall z :: GoesUp(Num, z)
  {
    forall z
      ensures GoesUp(Num, z)
    {
      if z < 255 {
        Increment(z);
      }
    }
  }

  // A sum that stays below 256 is the sum of the numbers.
  lemma AddSmall(x: bv32, y: bv32)
    requires x <= 168 && y <= 56
    ensures (x + y) as int == x as int + y as int
  {
    NumGoesUp();
    SumGoesUp(Num, x, y);
  }

  lemma TinyBound(x: bv32, y: bv32, m: bv32)
    requires x <= m <= 48 && y <= 8
    ensures x + y <= m + 8
  {
  }

  // One lane of a sum.
  lemma LaneAdds(x: bv32, y: bv32, m: bv32, z: bv32)
    requires x <= m <= 48 && y <= 8 && z == x + y
    ensures z <= m + 8 && z as int == x as int + y as int
  {
    AddSmall(x, y);
    TinyBound(x, y, m);
  }

  lemma WithinMore(x: bv32, m: bv32)
    requires Within(x, m) && m <= 56
    ensures Within(x, 56)
  {
  }

  lemma SumLanes(x: bv32, y: bv32, m: bv32, z: bv32)
    requires Within(x, m) && m <= 48 && Within(y, 8) && z == x + y
    ensures z & 0xFF == (x & 0xFF) + (y & 0xFF) && (z >> 8) & 0xFF == ((x >> 8) & 0xFF) + ((y >> 8) & 0xFF)
    ensures (z >> 16) & 0xFF == ((x >> 16) & 0xFF) + ((y >> 16) & 0xFF)
    ensures (z >> 24) & 0xFF == ((x >> 24) & 0xFF) + ((y >> 24) & 0xFF)
  {
    WithinMore(x, m);
    SmallLanes(x);
    TinyLanes(y);
    LowLanes(x, y);
    HighLanes(x, y);
  }

  lemma Lane0Holds(x: bv32, y: bv32, m: bv32, z: bv32, n: int, q: int)
    requires Within(x, m) && m <= 48 && Within(y, 8) && z == x + y
    requires (x & 0xFF) as int == n && (y & 0xFF) as int == q
    ensures z & 0xFF <= m + 8 && (z & 0xFF) as int == n + q
  {
    SumLanes(x, y, m, z);
    LaneAdds(x & 0xFF, y & 0xFF, m, z & 0xFF);
  }

  lemma Lane1Holds(x: bv32, y: bv32, m: bv32, z: bv32, n: int, q: int)
    requires Within(x, m) && m <= 48 && Within(y, 8) && z == x + y
    requires ((x >> 8) & 0xFF) as int == n && ((y >> 8) & 0xFF) as int == q
    ensures (z >> 8) & 0xFF <= m + 8 && ((z >> 8) & 0xFF) as int == n + q
  {
    SumLanes(x, y, m, z);
    LaneAdds((x >> 8) & 0xFF, (y >> 8) & 0xFF, m, (z >> 8) & 0xFF);
  }

  lemma Lane2Holds(x: bv32, y: bv32, m: bv32, z: bv32, n: int, q: int)
    requires Within(x, m) && m <= 48 && Within(y, 8) && z == x + y
    requires ((x >> 16) & 0xFF) as int == n && ((y >> 16) & 0xFF) as int == q
    ensures (z >> 16) & 0xFF <= m + 8 && ((z >> 16) & 0xFF) as int == n + q
  {
    SumLanes(x, y, m, z);
    LaneAdds((x >> 16) & 0xFF, (y >> 16) & 0xFF, m, (z >> 16) & 0xFF);
  }

  lemma Lane3Holds(x: bv32, y: bv32, m: bv32, z: bv32, n: int, q: int)
    requires Within(x, m) && m <= 48 && Within(y, 8) && z == x + y
    requires ((x >> 24) & 0xFF) as int == n && ((y >> 24) & 0xFF) as int == q
    ensures (z >> 24) & 0xFF <= m + 8 && ((z >> 24) & 0xFF) as int == n + q
  {
    SumLanes(x, y, m, z);
    LaneAdds((x >> 24) & 0xFF, (y >> 24) & 0xFF, m, (z >> 24) & 0xFF);
  }

  /** Adding one more word to at most six never carries from one lane into the next. */
  lemma HoldsAdds(x: bv32, y: bv32, m: bv32, z: bv32, n: seq<int>, q: seq<int>)
    requires Within(x, m) && m <= 48 && Within(y, 8) && z == x + y && Holds(x, n) && Holds(y, q)
    ensures Within(z, m + 8) && Holds(z, [n[0] + q[0], n[1] + q[1], n[2] + q[2], n[3] + q[3]])
  {
    Lane0Holds(x, y, m, z, n[0], q[0]);
    Lane1Holds(x, y, m, z, n[1], q[1]);
    Lane2Holds(x, y, m, z, n[2], q[2]);
    Lane3Holds(x, y, m, z, n[3], q[3]);
  }

  // ----- the sum of the lanes

  lemma Multiplied(s: bv32)
    ensures s * 0x01010101 == (s + (s << 8)) + ((s + (s << 8)) << 16)
  {
  }

  lemma HalfSum(s: bv32)
    requires s & 0xC0C0C0C0 == 0
    ensures (s + (s << 8)) & 0x80808080 == 0
    ensures (s + (s << 8)) >> 24 == (s >> 24) + ((s >> 16) & 0xFF)
    ensures ((s + (s << 8)) >> 8) & 0xFF == ((s >> 8) & 0xFF) + (s & 0xFF)
  {
  }

  lemma WholeSum(t: bv32)
    requires t & 0x80808080 == 0
    ensures (t + (t << 16)) >> 24 == (t >> 24) + ((t >> 8) & 0xFF)
  {
  }

  /** The multiplication adds up the four lanes: at most 224, which still fits the top byte. */
  lemma TopByte(s: bv32, a: bv32, b: bv32, c: bv32, d: bv32, r: bv32)
    requires Within(s, 56) && r == (s * 0x01010101) >> 24
    requires a == s & 0xFF && b == (s >> 8) & 0xFF && c == (s >> 16) & 0xFF && d == (s >> 24) & 0xFF
    ensures r == (d + c) + (b + a)
  {
    SmallLanes(s);
    Multiplied(s);
    HalfSum(s);
    WholeSum(s + (s << 8));
    TopLane(s);
  }

  lemma TopLane(s: bv32)
    ensures (s >> 24) & 0xFF == s >> 24
  {
  }

  lemma Regroup(a: bv32, b: bv32, c: bv32, d: bv32, p: bv32, q: bv32, r: bv32)
    requires a <= 56 && b <= 56 && c <= 56 && d <= 56
    requires r == (d + c) + (b + a) && p == d + c && q == p + b
    ensures r == q + a
  {
  }

  lemma TwoLanes(d: bv32, c: bv32, p: bv32)
    requires d <= 56 && c <= 56 && p == d + c
    ensures p as int == d as int + c as int && p <= 112
  {
    AddSmall(d, c);
    assert d + c <= 112;
  }

  lemma ThreeLanes(p: bv32, b: bv32, q: bv32)
    requires p <= 112 && b <= 56 && q == p + b
    ensures q as int == p as int + b as int && q <= 168
  {
    AddSmall(p, b);
    assert p + b <= 168;
  }

  lemma FourLanes(a: bv32, b: bv32, c: bv32, d: bv32, p: bv32, q: bv32, r: bv32)
    requires a <= 56 && b <= 56 && c <= 56 && d <= 56 && p == d + c && q == p + b && r == q + a
    ensures r as int == a as int + b as int + c as int + d as int
  {
    TwoLanes(d, c, p);
    ThreeLanes(p, b, q);
    AddSmall(q, a);
  }

  lemma LanesSummed(x: bv32, n: seq<int>, r: bv32)
    requires Within(x, 56) && Holds(x, n) && r == (x * 0x01010101) >> 24
    ensures r as int == n[0] + n[1] + n[2] + n[3]
  {
    var a, b, c, d := x & 0xFF, (x >> 8) & 0xFF, (x >> 16) & 0xFF, (x >> 24) & 0xFF;
    var p := d + c;
    var q := p + b;
    TopByte(x, a, b, c, d, r);
    Regroup(a, b, c, d, p, q, r);
    FourLanes(a, b, c, d, p, q, r);
  }

  // ----- seven words

  function FoldAt(p: seq<Byte>, i: nat): bv32
    requires i + 4 <= |p|
  {
    Fold(Load(p[i], p[i + 1], p[i + 2], p[i + 3]))
  }

  lemma OneMore(p: seq<Byte>, i: nat)
    requires i < |p|
    ensures CountBytes(p[..i + 1]) == CountBytes(p[..i]) + ByteCount(p[i])
  {
    assert p[..i + 1][..i] == p[..i];
  }

  lemma FourMore(p: seq<Byte>, i: nat)
    requires i + 4 <= |p|
    ensures CountBytes(p[..i + 4])
         == CountBytes(p[..i]) + ByteCount(p[i]) + ByteCount(p[i + 1]) + ByteCount(p[i + 2]) + ByteCount(p[i + 3])
  {
    OneMore(p, i);
    OneMore(p, i + 1);
    OneMore(p, i + 2);
    OneMore(p, i + 3);
  }

  // The lanes of x add up to the bits of the first i bytes.
  ghost predicate Counted(p: seq<Byte>, i: nat, x: bv32, m: bv32, n: seq<int>)
    requires i <= |p|
  {
    Within(x, m) && Holds(x, n) && n[0] + n[1] + n[2] + n[3] == CountBytes(p[..i])
  }

  lemma WordAdded(p: seq<Byte>, i: nat, x: bv32, m: bv32, y: bv32, z: bv32, n: seq<int>) returns (n': seq<int>)
    requires i + 4 <= |p| && m <= 48 && Counted(p, i, x, m, n) && y == FoldAt(p, i) && z == x + y
    ensures Counted(p, i + 4, z, m + 8, n')
  {
    FoldHolds(p[i], p[i + 1], p[i + 2], p[i + 3], y);
    var q := [ByteCount(p[i]), ByteCount(p[i + 1]), ByteCount(p[i + 2]), ByteCount(p[i + 3])];
    HoldsAdds(x, y, m, z, n, q);
    FourMore(p, i);
    n' := [n[0] + q[0], n[1] + q[1], n[2] + q[2], n[3] + q[3]];
  }

  lemma FirstWord(p: seq<Byte>, y: bv32) returns (n: seq<int>)
    requires 4 <= |p| && y == FoldAt(p, 0)
    ensures Counted(p, 4, y, 8, n)
  {
    FoldHolds(p[0], p[1], p[2], p[3], y);
    FourMore(p, 0);
    assert p[..0] == [];
    n := [ByteCount(p[0]), ByteCount(p[1]), ByteCount(p[2]), ByteCount(p[3])];
  }

  lemma AllCounted(p: seq<Byte>, x: bv32, r: bv32)
    requires |p| == 28 && Counts(p, 28, x, 56) && r == (x * 0x01010101) >> 24
    ensures r as int == CountBytes(p)
  {
    var n :| Counted(p, 28, x, 56, n);
    LanesSummed(x, n, r);
    assert p[..28] == p;
  }

  // The word z counts the first i bytes.
  ghost predicate Counts(p: seq<Byte>, i: nat, z: bv32, m: bv32)
    requires i <= |p|
  {
    exists n :: Counted(p, i, z, m, n)
  }

  lemma AddWord(p: seq<Byte>, i: nat, x: bv32, m: bv32, y: bv32, z: bv32, m': bv32)
    requires i + 4 <= |p| && m <= 48 && Counts(p, i, x, m) && y == FoldAt(p, i) && z == x + y && m' == m + 8
    ensures Counts(p, i + 4, z, m')
  {
    var n :| Counted(p, i, x, m, n);
    n := WordAdded(p, i, x, m, y, z, n);
  }

  // The first four of the seven words, folded and added,
  method AddFourWords(p: seq<Byte>) returns (sum: bv32)
    requires |p| == 28
    ensures Counts(p, 16, sum, 32)
  {
    var aux1, aux2, aux3, aux4 := FoldAt(p, 0), FoldAt(p, 4), FoldAt(p, 8), FoldAt(p, 12);
    ghost var n := FirstWord(p, aux1);
    var sum2 := aux1 + aux2;
    AddWord(p, 4, aux1, 8, aux2, sum2, 16);
    var sum3 := sum2 + aux3;
    AddWord(p, 8, sum2, 16, aux3, sum3, 24);
    sum := sum3 + aux4;
    AddWord(p, 12, sum3, 24, aux4, sum, 32);
  }

  // and the other three.
  method AddThreeWords(p: seq<Byte>, sum4: bv32) returns (sum: bv32)
    requires |p| == 28 && Counts(p, 16, sum4, 32)
    ensures Counts(p, 28, sum, 56)
  {
    var aux5, aux6, aux7 := FoldAt(p, 16), FoldAt(p, 20), FoldAt(p, 24);
    var sum5 := sum4 + aux5;
    AddWord(p, 16, sum4, 32, aux5, sum5, 40);
    var sum6 := sum5 + aux6;
    AddWord(p, 20, sum5, 40, aux6, sum6, 48);
    sum := sum6 + aux7;
    AddWord(p, 24, sum6, 48, aux7, sum, 56);
  }

  /** One round of the main loop of redisPopcount: seven words, 28 bytes. */
  method CountSevenWords(p: seq<Byte>) returns (bits: nat)
    requires |p| == 28
    ensures bits == CountBytes(p)
  {
    var sum4 := AddFourWords(p);
    var sum := AddThreeWords(p, sum4);
    var top := (sum * 0x01010101) >> 24;
    AllCounted(p, sum, top);
    bits := top as nat;
  }

  // ----- redisPopcount and BITCOUNT

  lemma {:induction false} CountBytesAppend(a: seq<Byte>, b: seq<Byte>)
    ensures CountBytes(a + b) == CountBytes(a) + CountBytes(b)
    decreases |b|
  {
    if b == [] {
      assert a + b == a;
    } else {
      var k := |b| - 1;
      assert (a + b)[..|a + b| - 1] == a + b[..k];
      CountBytesAppend(a, b[..k]);
    }
  }

  lemma PartCounted(s: seq<Byte>, i: nat, j: nat)
    requires i <= j <= |s|
    ensures CountBytes(s[..j]) == CountBytes(s[..i]) + CountBytes(s[i..j])
  {
    CountBytesAppend(s[..i], s[i..j]);
    assert s[..i] + s[i..j] == s[..j];
  }

  /** addr is where s lies in memory; only its alignment matters. */
  method RedisPopcount(addr: nat, s: seq<Byte>) returns (bits: nat)
    ensures bits == Count(s, 0, 8 * |s|)
  {
    bits := 0;
    var p: nat, count: nat := 0, |s|;
    while (addr + p) % 4 != 0 && count != 0
      invariant p + count == |s| && bits == CountBytes(s[..p])
      decreases count
    {
      OneMore(s, p);
      bits := bits + ByteCount(s[p]);
      p, count := p + 1, count - 1;
    }
    while count >= 28
      invariant p + count == |s| && bits == CountBytes(s[..p])
    {
      var more := CountSevenWords(s[p..p + 28]);
      PartCounted(s, p, p + 28);
      bits := bits + more;
      p, count := p + 28, count - 28;
    }
    while count != 0
      invariant p + count == |s| && bits == CountBytes(s[..p])
    {
      OneMore(s, p);
      bits := bits + ByteCount(s[p]);
      p, count := p + 1, count - 1;
    }
    assert s[..p] == s;
    CountBytesIsCount(s);
  }

  /** The optional range of BITCOUNT: two indexes that may be negative, in bytes or in bits. */
  datatype Range = Whole | Between(start: int, end: int, isBit: bool)

  /** The positions that a range selects: from the first up to the second. */
  function Positions(range: Range, len: nat): (nat, nat) {
    match range
    case Whole => (0, 8 * len)
    case Between(start, end, isBit) =>
      var total := if isBit then 8 * len else len;
      var lo, hi := FromEnd(start, total), FromEnd(end, total);
      var unit := if isBit then 1 else 8;
      if start < 0 && end < 0 && start > end then (0, 0)
      else (unit * lo, unit * (if hi < total then hi + 1 else total))
  }

  /** Which positions a range selects, in bits or in bytes: from its first index to its last one, negative ones
      counted from the end; none if both are negative and the first is the greater. */
  lemma PositionsExact(start: int, end: int, isBit: bool, len: nat, pos: nat)
    ensures var (lo, hi) := Positions(Between(start, end, isBit), len);
      var total, u := if isBit then 8 * len else len, if isBit then pos else pos / 8;
      lo <= pos < hi <==>
        pos < 8 * len && !(start < 0 && end < 0 && start > end) && NotBefore(u, start, total) && NotAfter(u, end, total)
  {
  }

  lemma {:induction false} CountNone(f: nat -> bool, lo: nat, hi: nat)
    requires forall i :: lo <= i < hi ==> !f(i)
    ensures CountIf(f, lo, hi) == 0
    decreases hi
  {
    if lo < hi {
      CountNone(f, lo, hi - 1);
    }
  }

  lemma OneByte(b: Byte, i: nat)
    requires i < 8
    ensures BitZ([b], i) == b[i]
  {
  }

  // The bits of one byte under a mask.
  lemma MaskedByte(b: Byte, mask: Byte, lo: nat, hi: nat)
    requires lo <= hi <= 8 && forall i :: 0 <= i < 8 ==> (mask[i] <==> lo <= i < hi)
    ensures Count([And(b, mask)], 0, 8) == Count([b], lo, hi)
  {
    forall i | 0 <= i < 8
      ensures BitsOf([And(b, mask)])(i) == (BitsOf([b])(i) && lo <= i < hi)
    {
      OneByte(b, i);
      OneByte(And(b, mask), i);
    }
    CountMasked(BitsOf([b]), BitsOf([And(b, mask)]), lo, hi, 8);
  }

  lemma CountMasked(f: nat -> bool, g: nat -> bool, lo: nat, hi: nat, n: nat)
    requires lo <= hi <= n && forall i {:trigger g(i)} :: 0 <= i < n ==> g(i) == (f(i) && lo <= i < hi)
    ensures CountIf(g, 0, n) == CountIf(f, lo, hi)
  {
    assert CountIf(g, 0, lo) == 0 by { CountNone(g, 0, lo); }
    assert CountIf(g, hi, n) == 0 by { CountNone(g, hi, n); }
    assert CountIf(g, lo, hi) == CountIf(f, lo, hi) by { CountShift(g, f, lo, hi, 0); }
    CountSplit(g, 0, lo, n);
    CountSplit(g, lo, hi, n);
  }

  lemma TwoBytes(x: Byte, y: Byte)
    ensures Count([x, y], 0, 16) == Count([x], 0, 8) + Count([y], 0, 8)
  {
    CountBytesIsCount([x, y]);
    CountBytesIsCount([x]);
    CountBytesIsCount([y]);
    CountBytesAppend([x], [y]);
    assert [x] + [y] == [x, y];
  }

  // The bits of byte i under a mask.
  lemma MaskedAt(p: seq<Byte>, i: nat, mask: Byte, lo: nat, hi: nat)
    requires i < |p| && lo <= hi <= 8 && forall j :: 0 <= j < 8 ==> (mask[j] <==> lo <= j < hi)
    ensures Count([And(p[i], mask)], 0, 8) == Count(p, 8 * i + lo, 8 * i + hi)
  {
    MaskedByte(p[i], mask, lo, hi);
    OneSlice(p, i, lo, hi);
  }

  lemma OneSlice(p: seq<Byte>, i: nat, lo: nat, hi: nat)
    requires i < |p| && hi <= 8
    ensures Count([p[i]], lo, hi) == Count(p, 8 * i + lo, 8 * i + hi)
  {
    assert p[i..i + 1] == [p[i]];
    CountSlice(p, i, i + 1, lo, hi);
  }

  // The bits before the range in its first byte.
  lemma FirstEdge(p: seq<Byte>, i: nat, k: nat)
    requires i < |p| && k < 8
    ensures Count([And(p[i], FromBv(FirstMask(k)))], 0, 8) == Count(p, 8 * i, 8 * i + k)
  {
    forall j | 0 <= j < 8
      ensures FromBv(FirstMask(k))[j] <==> 0 <= j < k
    {
      MaskBits(k, j);
    }
    MaskedAt(p, i, FromBv(FirstMask(k)), 0, k);
  }

  // The bits after the range in its last byte.
  lemma LastEdge(p: seq<Byte>, i: nat, k: nat)
    requires i < |p| && k < 8
    ensures Count([And(p[i], FromBv(LastMask(k)))], 0, 8) == Count(p, 8 * i + k + 1, 8 * i + 8)
  {
    forall j | 0 <= j < 8
      ensures FromBv(LastMask(k))[j] <==> k + 1 <= j < 8
    {
      MaskBits(k, j);
    }
    MaskedAt(p, i, FromBv(LastMask(k)), k + 1, 8);
  }

  // Whole bytes, without what they hold outside the range.
  lemma Edges(f: nat -> bool, a: nat, lo: nat, hi: nat, b: nat)
    requires a <= lo <= hi <= b
    ensures CountIf(f, lo, hi) == CountIf(f, a, b) - CountIf(f, a, lo) - CountIf(f, hi, b)
  {
    CountSplit(f, a, lo, b);
    CountSplit(f, lo, hi, b);
  }

  lemma NoMasks(k: nat, m: nat)
    requires k < 8 && m < 8 && FirstMask(k) == 0 && LastMask(m) == 0
    ensures k == 0 && m == 7
  {
    MaskBits(k, 0);
    MaskBits(m, 0);
  }

  // From whole bytes to the range; k and m say where in its byte the range starts and ends.
  lemma InRange(p: seq<Byte>, start: nat, end: nat, k: nat, m: nat)
    requires start <= end < |p| && k < 8 && m < 8 && 8 * start + k <= 8 * end + m
    ensures Count(p[start..end + 1], 0, 8 * (end + 1 - start))
         == Count(p, 8 * start + k, 8 * end + m + 1) + Count(p, 8 * start, 8 * start + k)
            + Count(p, 8 * end + m + 1, 8 * end + 8)
  {
    SliceWhole(p, start, end);
    EdgesOf(p, 8 * start, 8 * start + k, 8 * end + m + 1, 8 * end + 8);
  }

  lemma SliceWhole(p: seq<Byte>, start: nat, end: nat)
    requires start <= end < |p|
    ensures Count(p[start..end + 1], 0, 8 * (end + 1 - start)) == Count(p, 8 * start, 8 * end + 8)
  {
    CountSlice(p, start, end + 1, 0, 8 * (end + 1 - start));
  }

  lemma EdgesOf(p: seq<Byte>, a: nat, lo: nat, hi: nat, b: nat)
    requires a <= lo <= hi <= b
    ensures Count(p, lo, hi) == Count(p, a, b) - Count(p, a, lo) - Count(p, hi, b)
  {
    Edges(BitsOf(p), a, lo, hi, b);
  }

  lemma NoOutside(p: seq<Byte>, start: nat, end: nat)
    ensures Count(p, 8 * start, 8 * start) == 0 && Count(p, 8 * end + 8, 8 * end + 8) == 0
  {
  }

  /** Bytes from start to end, minus the bits outside the range. */
  method CountWithEdges(addr: nat, p: seq<Byte>, start: nat, end: nat, k: nat, m: nat) returns (count: int)
    requires start <= end < |p| && k < 8 && m < 8 && 8 * start + k <= 8 * end + m
    ensures count == Count(p, 8 * start + k, 8 * end + m + 1)
  {
    var firstMask, lastMask := FirstMask(k), LastMask(m);
    count := RedisPopcount(addr + start, p[start..end + 1]);
    InRange(p, start, end, k, m);
    if firstMask != 0 || lastMask != 0 {
      var outside := CountOutside(p, start, end, k, m);
      count := count - outside;
    } else {
      NoMasks(k, m);
      NoOutside(p, start, end);
    }
  }

  /** The two masked bytes hold the bits to subtract, also when they come from the same byte. */
  method CountOutside(p: seq<Byte>, start: nat, end: nat, k: nat, m: nat) returns (count: nat)
    requires start <= end < |p| && k < 8 && m < 8
    ensures count == Count(p, 8 * start, 8 * start + k) + Count(p, 8 * end + m + 1, 8 * end + 8)
  {
    var first, last := FromBv(0), FromBv(0);
    if FirstMask(k) != 0 {
      first := And(p[start], FromBv(FirstMask(k)));
    }
    if LastMask(m) != 0 {
      last := And(p[end], FromBv(LastMask(m)));
    }
    count := RedisPopcount(0, [first, last]);
    TwoBytes(first, last);
    FirstOutside(p, start, k, first);
    LastOutside(p, end, m, last);
  }

  lemma FirstOutside(p: seq<Byte>, i: nat, k: nat, first: Byte)
    requires i < |p| && k < 8
    requires first == if FirstMask(k) != 0 then And(p[i], FromBv(FirstMask(k))) else FromBv(0)
    ensures Count([first], 0, 8) == Count(p, 8 * i, 8 * i + k)
  {
    if FirstMask(k) != 0 {
      FirstEdge(p, i, k);
    } else {
      MaskBits(k, 0);
      NoBits();
    }
  }

  lemma LastOutside(p: seq<Byte>, i: nat, k: nat, last: Byte)
    requires i < |p| && k < 8
    requires last == if LastMask(k) != 0 then And(p[i], FromBv(LastMask(k))) else FromBv(0)
    ensures Count([last], 0, 8) == Count(p, 8 * i + k + 1, 8 * i + 8)
  {
    if LastMask(k) != 0 {
      LastEdge(p, i, k);
    } else {
      MaskBits(k, 0);
      NoBits();
    }
  }

  lemma NoBits()
    ensures Count([FromBv(0)], 0, 8) == 0
  {
    var f := BitsOf([FromBv(0)]);
    forall i | 0 <= i < 8
      ensures !f(i)
    {
      OneByte(FromBv(0), i);
    }
    CountNone(f, 0, 8);
  }

  /** The indexes of a range, clipped to a string of len bytes and turned into bytes; k and m are the bit of
      the first byte where the range starts and the bit of the last byte where it ends. */
  method ClipRange(range: Range, len: nat) returns (start: int, end: int, k: nat, m: nat)
    ensures var (lo, hi) := Positions(range, len);
      if start > end then hi <= lo
      else 0 <= start && end < len && k < 8 && m < 8 && lo == 8 * start + k && hi == 8 * end + m + 1 && lo < hi
  {
    start, end, k, m := 0, len - 1, 0, 7;
    if range.Between? {
      start, end := range.start, range.end;
      if start < 0 && end < 0 && start > end {
        return 1, 0, 0, 0;
      }
      var totlen := if range.isBit then 8 * len else len;
      start, end := ClipIndexes(start, end, totlen);
      if range.isBit && start <= end {
        k, m := start % 8, end % 8;
        start, end := start / 8, end / 8;
      }
    }
  }

  /** BITCOUNT on a string: the number of set bits at the positions the range selects. */
  method BitcountCommand(addr: nat, p: seq<Byte>, range: Range) returns (count: int)
    ensures var (lo, hi) := Positions(range, |p|); count == Count(p, lo, hi)
  {
    var start, end, k, m := ClipRange(range, |p|);
    if start > end {
      return 0;
    }
    count := CountWithEdges(addr, p, start, end, k, m);
  }
}
