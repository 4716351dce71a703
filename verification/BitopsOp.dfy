/** BITOP: four words at a time where all sources have data, then byte by byte. */
module BitopsOp {
  import opened Options
  import opened BitStrings
  import opened Bitmap

  datatype Op = AndOp | OrOp | XorOp | NotOp

  const ZERO: Byte := Zeros(8)

  // &, | and ^ on values of any width; NOT has a single source and combines nothing.
  function Combine(op: Op, a: Bits, b: Bits): (r: Bits)
    requires |a| == |b|
    ensures |r| == |a|
  {
    match op
    case AndOp => And(a, b)
    case OrOp => Or(a, b)
    case XorOp => Xor(a, b)
    case NotOp => a
  }

  function ByteAt(s: seq<Byte>, j: nat): Byte {
    if j < |s| then s[j] else ZERO
  }

  /** The operator folded over byte j of the first n sources, padded with zeros. */
  function FoldByte(op: Op, srcs: seq<seq<Byte>>, j: nat, n: nat): Byte
    requires 1 <= n <= |srcs|
  {
    if n == 1 then
      if op == NotOp then Not(ByteAt(srcs[0], j)) else ByteAt(srcs[0], j)
    else Combine(op, FoldByte(op, srcs, j, n - 1), ByteAt(srcs[n - 1], j))
  }

  /** What bit pos of the result is: AND leaves the bits that all of the first n sources have, OR those that some
      has, XOR those that an odd number of them has, NOT those that the only one does not have; zeros follow
      each source. */
  ghost predicate Law(op: Op, srcs: seq<seq<Byte>>, n: nat, pos: nat, v: bool)
    requires 1 <= n <= |srcs|
  {
    match op
    case AndOp => v <==> forall k :: 0 <= k < n ==> BitZ(srcs[k], pos)
    case OrOp => v <==> exists k :: 0 <= k < n && BitZ(srcs[k], pos)
    case XorOp => v <==> Holders(srcs, n, pos) % 2 == 1
    case NotOp => n == 1 ==> v == !BitZ(srcs[0], pos)
  }

  // How many of the first n sources have bit pos.
  function Holders(srcs: seq<seq<Byte>>, n: nat, pos: nat): nat
    requires n <= |srcs|
  {
    if n == 0 then 0 else Holders(srcs, n - 1, pos) + One(BitZ(srcs[n - 1], pos))
  }

  lemma PaddedBit(s: seq<Byte>, j: nat, i: nat)
    requires i < 8
    ensures ByteAt(s, j)[i] == BitZ(s, 8 * j + i)
  {
    assert (8 * j + i) / 8 == j && (8 * j + i) % 8 == i;
  }

  /** The fold follows the law of its operator, bit by bit. */
  lemma {:induction false} FoldBits(op: Op, srcs: seq<seq<Byte>>, j: nat, n: nat, i: nat)
    requires 1 <= n <= |srcs| && i < 8
    ensures Law(op, srcs, n, 8 * j + i, FoldByte(op, srcs, j, n)[i])
  {
    PaddedBit(srcs[n - 1], j, i);
    if n > 1 {
      FoldBits(op, srcs, j, n - 1, i);
    } else {
      assert Holders(srcs, 0, 8 * j + i) == 0;
    }
  }

  function MaxLength(srcs: seq<seq<Byte>>): nat {
    if srcs == [] then 0 else
      var m := MaxLength(srcs[..|srcs| - 1]);
      if |srcs[|srcs| - 1]| > m then |srcs[|srcs| - 1]| else m
  }

  lemma {:induction false} MaxLengthIsMax(srcs: seq<seq<Byte>>)
    ensures forall k :: 0 <= k < |srcs| ==> |srcs[k]| <= MaxLength(srcs)
    ensures srcs != [] ==> exists k :: 0 <= k < |srcs| && |srcs[k]| == MaxLength(srcs)
  {
    if srcs != [] {
      var n := |srcs| - 1;
      MaxLengthIsMax(srcs[..n]);
      if |srcs[n]| <= MaxLength(srcs[..n]) && n > 0 {
        var k :| 0 <= k < n && |srcs[..n][k]| == MaxLength(srcs[..n]);
        assert |srcs[k]| == MaxLength(srcs);
      } else {
        assert |srcs[n]| == MaxLength(srcs);
      }
    }
  }

  // ----- words

  // A 64-bit word as the bits of eight bytes.
  function Join(b: seq<Byte>): (w: Bits)
    requires |b| == 8
    ensures |w| == 64 && forall i :: 0 <= i < 64 ==> w[i] == b[i / 8][i % 8]
  {
    seq(64, i requires 0 <= i < 64 => b[i / 8][i % 8])
  }

  function Split(w: Bits, k: nat): Byte
    requires |w| == 64 && k < 8
  {
    w[8 * k..8 * k + 8]
  }

  lemma SplitJoined(b: seq<Byte>, k: nat)
    requires |b| == 8 && k < 8
    ensures Split(Join(b), k) == b[k]
  {
    forall i | 0 <= i < 8
      ensures Split(Join(b), k)[i] == b[k][i]
    {
      assert (8 * k + i) / 8 == k && (8 * k + i) % 8 == i;
    }
  }

  /** An operation on words is the operation on each of their bytes. */
  lemma WordCombines(op: Op, a: seq<Byte>, b: seq<Byte>, k: nat)
    requires |a| == 8 && |b| == 8 && k < 8
    ensures Split(Combine(op, Join(a), Join(b)), k) == Combine(op, a[k], b[k])
  {
    SplitJoined(a, k);
    SplitJoined(b, k);
    var x, y := Join(a), Join(b);
    assert Split(x, k) == x[8 * k..8 * k + 8] && Split(y, k) == y[8 * k..8 * k + 8];
    assert Split(Combine(op, x, y), k) == Combine(op, Split(x, k), Split(y, k));
  }

  lemma WordNegates(a: seq<Byte>, k: nat)
    requires |a| == 8 && k < 8
    ensures Split(Not(Join(a)), k) == Not(a[k])
  {
    SplitJoined(a, k);
    assert Split(Not(Join(a)), k) == Not(Split(Join(a), k));
  }

  method StoreWord(res: array<Byte>, at: nat, w: Bits)
    requires |w| == 64 && at + 8 <= res.Length
    modifies res
    ensures forall k :: 0 <= k < 8 ==> res[at + k] == Split(w, k)
    ensures forall t :: 0 <= t < res.Length && !(at <= t < at + 8) ==> res[t] == old(res[t])
  {
    for k := 0 to 8
      invariant forall i :: 0 <= i < k ==> res[at + i] == Split(w, i)
      invariant forall t :: 0 <= t < res.Length && !(at <= t < at + k) ==> res[t] == old(res[t])
    {
      res[at + k] := Split(w, k);
    }
  }

  /** lres[q] op= lp[i][q] */
  method CombineWord(op: Op, res: array<Byte>, src: seq<Byte>, at: nat)
    requires at + 8 <= res.Length && at + 8 <= |src|
    modifies res
    ensures forall t :: 0 <= t < res.Length ==>
      res[t] == if at <= t < at + 8 then Combine(op, old(res[t]), src[t]) else old(res[t])
  {
    var a, b := res[at..at + 8], src[at..at + 8];
    StoreWord(res, at, Combine(op, Join(a), Join(b)));
    forall t | at <= t < at + 8
      ensures res[t] == Combine(op, old(res[t]), src[t])
    {
      WordCombines(op, a, b, t - at);
      assert res[at + (t - at)] == Split(Combine(op, Join(a), Join(b)), t - at);
    }
  }

  method NegateWord(res: array<Byte>, at: nat)
    requires at + 8 <= res.Length
    modifies res
    ensures forall t :: 0 <= t < res.Length ==> res[t] == if at <= t < at + 8 then Not(old(res[t])) else old(res[t])
  {
    var a := res[at..at + 8];
    StoreWord(res, at, Not(Join(a)));
    forall t | at <= t < at + 8
      ensures res[t] == Not(old(res[t]))
    {
      WordNegates(a, t - at);
      assert res[at + (t - at)] == Split(Not(Join(a)), t - at);
    }
  }

  // ----- the fast path

  method CombineFourWords(op: Op, res: array<Byte>, src: seq<Byte>, at: nat)
    requires at + 32 <= res.Length && at + 32 <= |src|
    modifies res
    ensures forall t :: 0 <= t < res.Length ==>
      res[t] == if at <= t < at + 32 then Combine(op, old(res[t]), src[t]) else old(res[t])
  {
    CombineWord(op, res, src, at);
    CombineWord(op, res, src, at + 8);
    CombineWord(op, res, src, at + 16);
    CombineWord(op, res, src, at + 24);
  }

  method NegateFourWords(res: array<Byte>, at: nat)
    requires at + 32 <= res.Length
    modifies res
    ensures forall t :: 0 <= t < res.Length ==> res[t] == if at <= t < at + 32 then Not(old(res[t])) else old(res[t])
  {
    NegateWord(res, at);
    NegateWord(res, at + 8);
    NegateWord(res, at + 16);
    NegateWord(res, at + 24);
  }

  // The sources of a command: at least one, and just one for NOT.
  predicate Sources(op: Op, srcs: seq<seq<Byte>>) {
    |srcs| >= 1 && (op == NotOp ==> |srcs| == 1)
  }

  // One round: 32 bytes that hold the first source become the fold over all of them.
  method CombineBlock(op: Op, res: array<Byte>, srcs: seq<seq<Byte>>, at: nat)
    requires Sources(op, srcs) && at + 32 <= res.Length && forall i :: 0 <= i < |srcs| ==> at + 32 <= |srcs[i]|
    requires forall t :: at <= t < at + 32 ==> res[t] == srcs[0][t]
    modifies res
    ensures forall t :: at <= t < at + 32 ==> res[t] == FoldByte(op, srcs, t, |srcs|)
    ensures forall t :: 0 <= t < res.Length && !(at <= t < at + 32) ==> res[t] == old(res[t])
  {
    if op == NotOp {
      NegateFourWords(res, at);
      return;
    }
    for i := 1 to |srcs|
      invariant forall t :: at <= t < at + 32 ==> res[t] == FoldByte(op, srcs, t, i)
      invariant forall t :: 0 <= t < res.Length && !(at <= t < at + 32) ==> res[t] == old(res[t])
    {
      ghost var before := res[..];
      CombineFourWords(op, res, srcs[i], at);
      forall t | at <= t < at + 32
        ensures res[t] == FoldByte(op, srcs, t, i + 1)
      {
        assert before[t] == FoldByte(op, srcs, t, i);
      }
    }
  }

  method FastPath(op: Op, res: array<Byte>, srcs: seq<seq<Byte>>, minlen: nat) returns (j: nat)
    requires Sources(op, srcs) && minlen <= res.Length && forall i :: 0 <= i < |srcs| ==> minlen <= |srcs[i]|
    modifies res
    ensures j <= minlen && forall t :: 0 <= t < j ==> res[t] == FoldByte(op, srcs, t, |srcs|)
  {
    for t := 0 to minlen
      invariant forall k :: 0 <= k < t ==> res[k] == srcs[0][k]
    {
      res[t] := srcs[0][t];
    }
    j := 0;
    var left := minlen;
    while left >= 32
      invariant j + left == minlen
      invariant forall t :: 0 <= t < j ==> res[t] == FoldByte(op, srcs, t, |srcs|)
      invariant forall t :: j <= t < minlen ==> res[t] == srcs[0][t]
    {
      CombineBlock(op, res, srcs, j);
      j, left := j + 32, left - 32;
    }
  }

  // ----- byte by byte

  // An output that no further source can change.
  predicate Settled(op: Op, output: Byte) {
    (op == AndOp && output == ZERO) || (op == OrOp && output == Not(ZERO))
  }

  lemma {:induction false} SettledStays(op: Op, srcs: seq<seq<Byte>>, j: nat, i: nat, n: nat)
    requires 1 <= i <= n <= |srcs| && Settled(op, FoldByte(op, srcs, j, i))
    ensures FoldByte(op, srcs, j, n) == FoldByte(op, srcs, j, i)
    decreases n
  {
    if i < n {
      SettledStays(op, srcs, j, i, n - 1);
      var output, byte := FoldByte(op, srcs, j, n - 1), ByteAt(srcs[n - 1], j);
      assert Combine(op, output, byte) == output;
    }
  }

  method SlowByte(op: Op, srcs: seq<seq<Byte>>, j: nat) returns (output: Byte)
    requires Sources(op, srcs)
    ensures output == FoldByte(op, srcs, j, |srcs|)
  {
    output := ByteAt(srcs[0], j);
    if op == NotOp {
      output := Not(output);
    }
    var i := 1;
    while i < |srcs|
      invariant 1 <= i <= |srcs| && output == FoldByte(op, srcs, j, i)
    {
      output := Combine(op, output, ByteAt(srcs[i], j));
      i := i + 1;
      if Settled(op, output) {
        SettledStays(op, srcs, j, i, |srcs|);
        return;
      }
    }
  }

  // ----- the command

  // A missing key is an empty string.
  function Strings(keys: seq<Option<seq<Byte>>>): (r: seq<seq<Byte>>)
    ensures |r| == |keys| && forall i :: 0 <= i < |r| ==> r[i] == if keys[i].Some? then keys[i].value else []
  {
    seq(|keys|, i requires 0 <= i < |keys| => if keys[i].Some? then keys[i].value else [])
  }

  method Lengths(keys: seq<Option<seq<Byte>>>) returns (minlen: nat, maxlen: nat)
    ensures maxlen == MaxLength(Strings(keys))
    ensures forall i :: 0 <= i < |keys| ==> minlen <= |Strings(keys)[i]| <= maxlen
  {
    minlen, maxlen := 0, 0;
    var srcs := Strings(keys);
    for j := 0 to |keys|
      invariant maxlen == MaxLength(srcs[..j])
      invariant forall i :: 0 <= i < j ==> minlen <= |srcs[i]| <= maxlen
    {
      assert srcs[..j + 1][..j] == srcs[..j];
      if keys[j].None? {
        minlen := 0;
      } else {
        var len := |keys[j].value|;
        if len > maxlen { maxlen := len; }
        if j == 0 || len < minlen { minlen := len; }
      }
    }
    assert srcs[..|keys|] == srcs;
  }

  /** The law of the operator at every position of a folded string. */
  lemma FoldedLaw(op: Op, srcs: seq<seq<Byte>>, r: seq<Byte>, pos: nat)
    requires Sources(op, srcs) && pos < 8 * |r|
    requires forall j :: 0 <= j < |r| ==> r[j] == FoldByte(op, srcs, j, |srcs|)
    ensures Law(op, srcs, |srcs|, pos, Bit(r, pos))
  {
    FoldBits(op, srcs, pos / 8, |srcs|, pos % 8);
    assert 8 * (pos / 8) + pos % 8 == pos;
  }

  /** BITOP: as long as the longest source, every bit as the law of the operator says. */
  method BitopCommand(op: Op, keys: seq<Option<seq<Byte>>>) returns (r: seq<Byte>)
    requires Sources(op, Strings(keys))
    ensures forall k :: 0 <= k < |keys| ==> |Strings(keys)[k]| <= |r|
    ensures exists k :: 0 <= k < |keys| && |Strings(keys)[k]| == |r|
    ensures forall pos :: 0 <= pos < 8 * |r| ==> Law(op, Strings(keys), |keys|, pos, Bit(r, pos))
  {
    r := FoldAll(op, keys);
    MaxLengthIsMax(Strings(keys));
    forall pos | 0 <= pos < 8 * |r|
      ensures Law(op, Strings(keys), |keys|, pos, Bit(r, pos))
    {
      FoldedLaw(op, Strings(keys), r, pos);
    }
  }

  // The fast path, then byte by byte.
  method FoldAll(op: Op, keys: seq<Option<seq<Byte>>>) returns (r: seq<Byte>)
    requires Sources(op, Strings(keys))
    ensures |r| == MaxLength(Strings(keys))
    ensures forall j :: 0 <= j < |r| ==> r[j] == FoldByte(op, Strings(keys), j, |keys|)
  {
    var minlen, maxlen := Lengths(keys);
    if maxlen == 0 {
      return [];
    }
    var srcs := Strings(keys);
    var res := new Byte[maxlen](_ => ZERO);
    var j := 0;
    if minlen >= 32 && |keys| <= 16 {
      j := FastPath(op, res, srcs, minlen);
    }
    SlowPath(op, res, srcs, j);
    return res[..];
  }

  method SlowPath(op: Op, res: array<Byte>, srcs: seq<seq<Byte>>, from: nat)
    requires Sources(op, srcs) && from <= res.Length
    requires forall t :: 0 <= t < from ==> res[t] == FoldByte(op, srcs, t, |srcs|)
    modifies res
    ensures forall t :: 0 <= t < res.Length ==> res[t] == FoldByte(op, srcs, t, |srcs|)
  {
    var j := from;
    while j < res.Length
      invariant j <= res.Length && forall t :: 0 <= t < j ==> res[t] == FoldByte(op, srcs, t, |srcs|)
    {
      var output := SlowByte(op, srcs, j);
      res[j] := output;
      j := j + 1;
    }
  }
}
