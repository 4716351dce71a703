/** The overflow checks of BITFIELD, in 64-bit arithmetic, against integers without bounds. */
module BitopsOverflow {
  datatype Policy = Wrap | Sat | Fail

  const TWO63 := 0x8000_0000_0000_0000
  const TWO64 := 0x1_0000_0000_0000_0000

  // Conversions to uint64_t and int64_t.
  function U64(x: int): nat {
    x % TWO64
  }

  function S64(x: int): int {
    (x + TWO63) % TWO64 - TWO63
  }

  predicate IsS64(x: int) {
    -TWO63 <= x < TWO63
  }

  // What a check returns: its code and *limit.
  datatype Verdict = Verdict(code: int, limit: int)

  /** checkUnsignedBitfieldOverflow; max is 2^bits - 1. */
  function CheckUnsigned(value: nat, incr: int, max: nat, policy: Policy): Verdict {
    var maxincr := S64(max - value);
    var minincr := S64(0 - value);
    var wrapped := U64(value + incr) % (max + 1);
    if value > max || (incr > 0 && incr > maxincr) then
      Verdict(1, if policy == Wrap then wrapped else if policy == Sat then max else 0)
    else if incr < 0 && incr < minincr then
      if policy == Wrap then Verdict(1, wrapped) else Verdict(-1, 0)
    else Verdict(0, 0)
  }

  // c with its bit 2^(bits - 1) spread over the higher bits, or the higher bits cleared.
  function Spread(c: nat, half: nat): int
    requires half > 0
  {
    var u := c % (2 * half);
    if u >= half then u - 2 * half else u
  }

  /** checkSignedBitfieldOverflow; half is 2^(bits - 1), full says that bits is 64. */
  function CheckSigned(value: int, incr: int, half: nat, full: bool, policy: Policy): Verdict
    requires half > 0
  {
    var max, min := half - 1, 0 - half;
    var maxincr := S64(max - value);
    var minincr := S64(min - value);
    var wrapped := Spread(U64(value + incr), half);
    if value > max || (!full && incr > maxincr) || (value >= 0 && incr > 0 && incr > maxincr) then
      Verdict(1, if policy == Wrap then wrapped else if policy == Sat then max else 0)
    else if value < min || (!full && incr < minincr) || (value < 0 && incr < 0 && incr < minincr) then
      if policy == Wrap then Verdict(1, wrapped) else Verdict(-1, if policy == Sat then min else 0)
    else Verdict(0, 0)
  }

  // ----- integers without bounds

  /** What a sum becomes in the range from min to max: itself if it fits, else what the policy says. */
  datatype Settled = Stored(value: int) | Nothing

  function Nearest(x: int, min: int, max: int): int {
    if x < min then min else if x > max then max else x
  }

  // The representative of x modulo the size of the range.
  function Wrapped(x: int, min: int, max: int): int
    requires min <= max
  {
    (x - min) % (max - min + 1) + min
  }

  function Settle(x: int, min: int, max: int, policy: Policy): Settled
    requires min <= max
  {
    if min <= x <= max then Stored(x)
    else match policy
      case Wrap => Stored(Wrapped(x, min, max))
      case Sat => Stored(Nearest(x, min, max))
      case Fail => Nothing
  }

  // What BITFIELD makes of a verdict on the exact result x.
  function Outcome(v: Verdict, x: int, policy: Policy): Settled {
    if v.code == 0 then Stored(x) else if policy == Fail then Nothing else Stored(v.limit)
  }

  // 2^bits divides 2^64.
  predicate Divides(d: nat) {
    d > 0 && TWO64 % d == 0
  }

  lemma ModMod(x: int, d: nat)
    requires Divides(d)
    ensures U64(x) % d == x % d
  {
    var q, m := x / TWO64, TWO64 / d;
    assert TWO64 == d * m;
    assert x == q * TWO64 + U64(x);
    assert x == U64(x) + (q * m) * d by {
      assert q * TWO64 == q * (d * m);
      assert q * (d * m) == (q * m) * d;
    }
    AddMultiple(U64(x), q * m, d);
  }

  lemma AddMultiple(a: int, k: int, d: nat)
    requires d > 0
    ensures (a + k * d) % d == a % d
  {
    var q, r := a / d, a % d;
    assert a + k * d == (q + k) * d + r;
    RemainderUnique(a + k * d, d, q + k, r);
  }

  lemma RemainderUnique(x: int, d: nat, q: int, r: nat)
    requires d > 0 && x == q * d + r && r < d
    ensures x % d == r
  {
    var q', r' := x / d, x % d;
    assert (q - q') * d == r' - r;
    Apart(q - q', d);
  }

  lemma Apart(k: int, d: nat)
    ensures k >= 1 ==> k * d >= d
    ensures k <= -1 ==> k * d <= 0 - d
  {
    if k >= 1 {
      assert k * d == (k - 1) * d + d;
    } else if k <= -1 {
      assert k * d == (k + 1) * d - d;
    }
  }

  // ----- unsigned fields of up to 63 bits

  predicate UnsignedMax(max: nat) {
    1 <= max < TWO63 && Divides(max + 1)
  }

  /** INCRBY on an unsigned field stores the exact sum if it fits, else what the policy says. */
  lemma UnsignedIncr(value: nat, incr: int, max: nat, policy: Policy)
    requires UnsignedMax(max) && value <= max && IsS64(incr)
    ensures Outcome(CheckUnsigned(value, incr, max, policy), value + incr, policy)
         == Settle(value + incr, 0, max, policy)
  {
    ModMod(value + incr, max + 1);
    assert S64(max - value) == max - value && S64(0 - value) == 0 - value;
  }

  /** What SET makes of v for an unsigned field. */
  function UnsignedSet(v: int, max: nat, policy: Policy): Settled {
    Outcome(CheckUnsigned(U64(v), 0, max, policy), U64(v), policy)
  }

  /** SET on an unsigned field: saturation meets the nearest bound exactly when the value is not negative. */
  lemma UnsignedSetExact(v: int, max: nat, policy: Policy)
    requires UnsignedMax(max) && IsS64(v)
    ensures UnsignedSet(v, max, policy) == Settle(v, 0, max, policy) <==> !(policy == Sat && v < 0)
  {
    assert U64(v) == if v >= 0 then v else v + TWO64;
    ModMod(v, max + 1);
    ModMod(U64(v), max + 1);
  }

  /** Where it does not, it stores the other bound. */
  lemma UnsignedSetOtherEnd(v: int, max: nat)
    requires UnsignedMax(max) && IsS64(v) && v < 0
    ensures UnsignedSet(v, max, Sat) == Stored(max)
  {
    assert U64(v) == v + TWO64;
  }

  // ----- signed fields of up to 64 bits

  predicate SignedHalf(half: nat, full: bool) {
    0 < half <= TWO63 && Divides(2 * half) && (full <==> half == TWO63) && (!full ==> 2 * half <= TWO63)
  }

  lemma SpreadWraps(x: int, half: nat)
    requires half > 0 && Divides(2 * half)
    ensures Spread(U64(x), half) == Wrapped(x, 0 - half, half - 1)
  {
    ModMod(x, 2 * half);
    var q, u := x / (2 * half), x % (2 * half);
    if u >= half {
      assert x + half == (q + 1) * (2 * half) + (u - half);
      RemainderUnique(x + half, 2 * half, q + 1, u - half);
    } else {
      assert x + half == q * (2 * half) + (u + half);
      RemainderUnique(x + half, 2 * half, q, u + half);
    }
  }

  /** INCRBY on a signed field stores the exact sum if it fits, else what the policy says. */
  lemma SignedIncr(value: int, incr: int, half: nat, full: bool, policy: Policy)
    requires SignedHalf(half, full) && 0 - half <= value < half && IsS64(incr)
    ensures Outcome(CheckSigned(value, incr, half, full, policy), value + incr, policy)
         == Settle(value + incr, 0 - half, half - 1, policy)
  {
    SpreadWraps(value + incr, half);
    if full {
      FullIncr(value, incr, policy);
    } else {
      S64Same(half - 1 - value);
      S64Same(0 - half - value);
    }
  }

  lemma S64Same(x: int)
    requires IsS64(x)
    ensures S64(x) == x
  {
  }

  lemma FullIncr(value: int, incr: int, policy: Policy)
    requires IsS64(value) && IsS64(incr)
    ensures (CheckSigned(value, incr, TWO63, true, policy).code == 0) <==> IsS64(value + incr)
    ensures CheckSigned(value, incr, TWO63, true, policy).code != 0 && policy == Sat ==>
      CheckSigned(value, incr, TWO63, true, policy).limit == Nearest(value + incr, 0 - TWO63, TWO63 - 1)
  {
    if value >= 0 {
      S64Same(TWO63 - 1 - value);
    } else {
      S64Same(0 - TWO63 - value);
    }
  }

  function SignedSet(v: int, half: nat, full: bool, policy: Policy): Settled
    requires half > 0
  {
    Outcome(CheckSigned(v, 0, half, full, policy), v, policy)
  }

  /** SET on a signed field: saturation meets the nearest bound except for values so far below the field that
      the distance to its maximum leaves the range of int64_t. */
  lemma SignedSetExact(v: int, half: nat, full: bool, policy: Policy)
    requires SignedHalf(half, full) && IsS64(v)
    ensures SignedSet(v, half, full, policy) == Settle(v, 0 - half, half - 1, policy)
       <==> !(policy == Sat && !full && half - 1 - v >= TWO63)
  {
    if policy != Sat {
      SignedSetWraps(v, half, full, policy);
    } else if half - 1 - v < TWO63 {
      SignedSetNear(v, half, full);
    } else if !full {
      SignedSetOtherEnd(v, half);
    }
  }

  lemma SignedSetWraps(v: int, half: nat, full: bool, policy: Policy)
    requires SignedHalf(half, full) && IsS64(v) && policy != Sat
    ensures SignedSet(v, half, full, policy) == Settle(v, 0 - half, half - 1, policy)
  {
    SpreadWraps(v, half);
  }

  lemma SignedSetNear(v: int, half: nat, full: bool)
    requires SignedHalf(half, full) && IsS64(v) && half - 1 - v < TWO63
    ensures SignedSet(v, half, full, Sat) == Settle(v, 0 - half, half - 1, Sat)
  {
    if IsS64(0 - half - v) {
      S64Same(0 - half - v);
    }
    S64Same(half - 1 - v);
  }

  /** Where it does not, it stores the other bound. */
  lemma SignedSetOtherEnd(v: int, half: nat)
    requires SignedHalf(half, false) && IsS64(v) && half - 1 - v >= TWO63
    ensures SignedSet(v, half, false, Sat) == Stored(half - 1)
  {
    assert S64(half - 1 - v) == half - 1 - v - TWO64;
  }

  /** SET i8 -2^63 under SAT stores 127. */
  lemma SaturatesUpwards()
    ensures SignedSet(0 - TWO63, 128, false, Sat) == Stored(127)
  {
  }
}
