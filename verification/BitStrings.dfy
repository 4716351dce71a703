/** Machine words and bytes as strings of bits, index 0 being the least significant bit, with
    the C operators `^`, `<<` and `>>` on them. */
module BitStrings {
  type Bits = seq<bool>
  type Word = w: Bits | |w| == 64 witness Zeros(64)

  // The little-endian binary digits of n, cut to k places.
  function ToBits(n: nat, k: nat): (b: Bits)
    ensures |b| == k
    ensures k > 0 ==> b[0] == (n % 2 == 1)
  {
    if k == 0 then [] else [n % 2 == 1] + ToBits(n / 2, k - 1)
  }

  function FromBits(b: Bits): nat {
    if b == [] then 0 else (if b[0] then 1 else 0) + 2 * FromBits(b[1..])
  }

  function Pow2(k: nat): (p: nat)
    ensures p >= 1
  {
    if k == 0 then 1 else 2 * Pow2(k - 1)
  }

  lemma {:induction false} FromToBits(b: Bits)
    ensures FromBits(b) < Pow2(|b|)
    ensures ToBits(FromBits(b), |b|) == b
  {
    if b != [] {
      FromToBits(b[1..]);
      assert FromBits(b) / 2 == FromBits(b[1..]);
    }
  }

  lemma {:induction false} ToFromBits(n: nat, k: nat)
    requires n < Pow2(k)
    ensures FromBits(ToBits(n, k)) == n
  {
    if k > 0 {
      ToFromBits(n / 2, k - 1);
      assert ToBits(n, k)[1..] == ToBits(n / 2, k - 1);
    }
  }

  lemma {:induction false} PowAdds(a: nat, b: nat)
    ensures Pow2(a + b) == Pow2(a) * Pow2(b)
    decreases a
  {
    if a > 0 {
      PowAdds(a - 1, b);
      assert Pow2(a + b) == 2 * Pow2(a - 1 + b);
      assert 2 * (Pow2(a - 1) * Pow2(b)) == (2 * Pow2(a - 1)) * Pow2(b);
    }
  }

  lemma PowTwice(k: nat, p: nat)
    requires Pow2(k) == p
    ensures Pow2(k + k) == p * p
  {
    PowAdds(k, k);
  }

  lemma PowByte(k: nat)
    requires k == 8
    ensures Pow2(k) == 256
  {
    PowTwice(1, 2);
    PowTwice(2, 4);
    PowTwice(4, 16);
  }

  lemma Pow64(n: nat)
    requires n == 64
    ensures Pow2(n - 1) == 0x8000_0000_0000_0000 && Pow2(n) == 0x1_0000_0000_0000_0000
  {
    var k: nat := n / 8;
    PowByte(k);
    PowTwice(k, 256);
    PowTwice(2 * k, 0x10000);
    PowTwice(4 * k, 0x1_0000_0000);
  }

  function Zeros(k: nat): (z: Bits)
    ensures |z| == k
    ensures forall i :: 0 <= i < k ==> !z[i]
  {
    seq(k, _ => false)
  }

  function Xor(a: Bits, b: Bits): (r: Bits)
    requires |a| == |b|
    ensures |r| == |a|
    ensures forall i :: 0 <= i < |r| ==> r[i] == (a[i] != b[i])
  {
    seq(|a|, i requires 0 <= i < |a| => a[i] != b[i])
  }

  function And(a: Bits, b: Bits): (r: Bits)
    requires |a| == |b|
    ensures |r| == |a|
  {
    seq(|a|, i requires 0 <= i < |a| => a[i] && b[i])
  }

  function Or(a: Bits, b: Bits): (r: Bits)
    requires |a| == |b|
    ensures |r| == |a|
  {
    seq(|a|, i requires 0 <= i < |a| => a[i] || b[i])
  }

  function Not(a: Bits): (r: Bits)
    ensures |r| == |a|
  {
    seq(|a|, i requires 0 <= i < |a| => !a[i])
  }

  // x << k, in the width of x.
  function Shl(x: Bits, k: nat): (r: Bits)
    requires k <= |x|
    ensures |r| == |x|
  {
    Zeros(k) + x[..|x| - k]
  }

  // x >> k, in the width of x.
  function Shr(x: Bits, k: nat): (r: Bits)
    requires k <= |x|
    ensures |r| == |x|
  {
    x[k..] + Zeros(k)
  }

  function Mirror(x: Bits): (r: Bits)
    ensures |r| == |x|
    ensures forall i :: 0 <= i < |r| ==> r[i] == x[|x| - 1 - i]
  {
    seq(|x|, i requires 0 <= i < |x| => x[|x| - 1 - i])
  }

  // Widens x with zeros at the high end.
  function Pad(x: Bits, k: nat): (r: Bits)
    requires |x| <= k
    ensures |r| == k
  {
    x + Zeros(k - |x|)
  }

  lemma XorAssociates(a: Bits, b: Bits, c: Bits)
    requires |a| == |b| == |c|
    ensures Xor(Xor(a, b), c) == Xor(a, Xor(b, c))
  {
  }
}
