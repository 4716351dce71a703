/** Integers of any width at any bit position of a string, and what happens when one does not fit. */
module BitopsField {
  import opened BitStrings
  import opened Bitmap

  // ----- reading and writing fields

  // The unsigned integer that the bits f(0), f(1) and so on spell.
  function Spelled(f: nat -> bool, bits: nat): nat {
    if bits == 0 then 0 else 2 * Spelled(f, bits - 1) + One(f(bits - 1))
  }

  function FieldBits(p: seq<Byte>, off: nat): nat -> bool {
    (j: nat) => BitZ(p, off + j)
  }

  /** The unsigned integer at position off, zeros following the string. */
  function Field(p: seq<Byte>, off: nat, bits: nat): nat {
    Spelled(FieldBits(p, off), bits)
  }

  lemma {:induction false} SpelledBound(f: nat -> bool, bits: nat)
    ensures Spelled(f, bits) < Pow2(bits)
  {
    if bits > 0 {
      SpelledBound(f, bits - 1);
    }
  }

  /** Two's complement. */
  function ToSigned(u: nat, bits: nat): int
    requires bits > 0
  {
    if u >= Pow2(bits - 1) then u - Pow2(bits) else u
  }

  function SignedField(p: seq<Byte>, off: nat, bits: nat): int
    requires bits > 0
  {
    ToSigned(Field(p, off, bits), bits)
  }

  // value & (1 << k)
  predicate NthBit(v: nat, k: nat) {
    (v / Pow2(k)) % 2 == 1
  }

  function SetBitAt(p: seq<Byte>, i: nat, v: bool): (p': seq<Byte>)
    requires i < 8 * |p|
    ensures |p'| == |p|
    ensures forall k :: 0 <= k < 8 * |p| ==> Bit(p', k) == if k == i then v else Bit(p, k)
  {
    p[i / 8 := p[i / 8][i % 8 := v]]
  }

  /** The string after the first n bits of a field of bits bits with value v are written at off. */
  function Written(p: seq<Byte>, off: nat, bits: nat, v: nat, n: nat): (p': seq<Byte>)
    requires off + bits <= 8 * |p| && n <= bits
    ensures |p'| == |p|
  {
    if n == 0 then p else SetBitAt(Written(p, off, bits, v, n - 1), off + n - 1, NthBit(v, bits - n))
  }

  function WriteField(p: seq<Byte>, off: nat, bits: nat, v: nat): seq<Byte>
    requires off + bits <= 8 * |p|
  {
    Written(p, off, bits, v, bits)
  }

  lemma {:induction false} WrittenBits(p: seq<Byte>, off: nat, bits: nat, v: nat, n: nat, k: nat)
    requires off + bits <= 8 * |p| && n <= bits && k < 8 * |p|
    ensures Bit(Written(p, off, bits, v, n), k)
         == if off <= k < off + n then NthBit(v, bits - 1 - (k - off)) else Bit(p, k)
    decreases n
  {
    if n > 0 {
      WrittenBits(p, off, bits, v, n - 1, k);
    }
  }

  /** No bit outside the field changes. */
  lemma OutsideUnchanged(p: seq<Byte>, off: nat, bits: nat, v: nat)
    requires off + bits <= 8 * |p|
    ensures |WriteField(p, off, bits, v)| == |p|
    ensures forall k :: 0 <= k < 8 * |p| && !(off <= k < off + bits) ==>
      Bit(WriteField(p, off, bits, v), k) == Bit(p, k)
  {
    forall k | 0 <= k < 8 * |p| && !(off <= k < off + bits)
      ensures Bit(WriteField(p, off, bits, v), k) == Bit(p, k)
    {
      WrittenBits(p, off, bits, v, bits, k);
    }
  }

  lemma HalfBits(v: nat, k: nat)
    ensures NthBit(v, k + 1) == NthBit(v / 2, k)
  {
    var d := Pow2(k);
    assert Pow2(k + 1) == 2 * d;
    DivTwice(v, d);
  }

  lemma DivTwice(v: nat, d: nat)
    requires d > 0
    ensures v / (2 * d) == (v / 2) / d
  {
    var q, h := (v / 2) / d, v / 2;
    var r := h - q * d;
    assert h == q * d + r && 0 <= r < d;
    var s := v - 2 * h;
    assert v == q * (2 * d) + (2 * r + s) && 0 <= 2 * r + s < 2 * d;
    DivUnique(v, 2 * d, q, 2 * r + s);
  }

  lemma DivUnique(v: nat, d: nat, q: nat, r: nat)
    requires d > 0 && v == q * d + r && r < d
    ensures v / d == q && v % d == r
  {
    Multiples(d, v / d, q);
    Multiples(d, q, v / d);
  }

  lemma {:induction false} Multiples(d: nat, a: nat, b: nat)
    ensures a < b ==> a * d + d <= b * d
    decreases b
  {
    if a < b {
      Multiples(d, a, b - 1);
      assert b * d == (b - 1) * d + d;
    }
  }

  // Splitting off the last binary digit.
  lemma ModTwice(v: nat, k: nat)
    ensures v % Pow2(k + 1) == 2 * ((v / 2) % Pow2(k)) + v % 2
  {
    var d, h := Pow2(k), v / 2;
    var q, r := h / d, h % d;
    assert h == q * d + r;
    assert v == 2 * h + v % 2;
    assert v == q * (2 * d) + (2 * r + v % 2);
    DivUnique(v, 2 * d, q, 2 * r + v % 2);
  }

  lemma {:induction false} SpelledFromBits(f: nat -> bool, bits: nat, v: nat)
    requires forall j :: 0 <= j < bits ==> f(j) == NthBit(v, bits - 1 - j)
    ensures Spelled(f, bits) == v % Pow2(bits)
    decreases bits
  {
    if bits > 0 {
      forall j | 0 <= j < bits - 1
        ensures f(j) == NthBit(v / 2, bits - 2 - j)
      {
        HalfBits(v, bits - 2 - j);
      }
      SpelledFromBits(f, bits - 1, v / 2);
      ModTwice(v, bits - 1);
      assert f(bits - 1) == NthBit(v, 0);
    }
  }

  lemma WrittenField(p: seq<Byte>, off: nat, bits: nat, v: nat, j: nat)
    requires off + bits <= 8 * |p| && j < bits
    ensures BitZ(WriteField(p, off, bits, v), off + j) == NthBit(v, bits - 1 - j)
  {
    WrittenBits(p, off, bits, v, bits, off + j);
  }

  /** Get after set returns what was stored. */
  lemma GetAfterSet(p: seq<Byte>, off: nat, bits: nat, v: nat)
    requires off + bits <= 8 * |p|
    ensures Field(WriteField(p, off, bits, v), off, bits) == v % Pow2(bits)
  {
    var f := FieldBits(WriteField(p, off, bits, v), off);
    forall j | 0 <= j < bits
      ensures f(j) == NthBit(v, bits - 1 - j)
    {
      WrittenField(p, off, bits, v, j);
    }
    SpelledFromBits(f, bits, v);
  }

  lemma {:induction false} SpelledSame(f: nat -> bool, g: nat -> bool, bits: nat)
    requires forall j :: 0 <= j < bits ==> f(j) == g(j)
    ensures Spelled(f, bits) == Spelled(g, bits)
  {
    if bits > 0 {
      SpelledSame(f, g, bits - 1);
    }
  }
}
