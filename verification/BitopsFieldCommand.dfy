/** getting and setting bit fields in place, and BITFIELD. */
module BitopsFieldCommand {
  import opened Options
  import opened BitStrings
  import opened Bitmap
  import opened BitopsField
  import opened BitopsOverflow

  // ----- get and set

  method GetUnsignedBitfield(p: seq<Byte>, offset: nat, bits: nat) returns (value: nat)
    requires offset + bits <= 8 * |p|
    ensures value == Field(p, offset, bits)
  {
    value := 0;
    for j := 0 to bits
      invariant value == Spelled(FieldBits(p, offset), j)
    {
      var byte, bit := (offset + j) / 8, (offset + j) % 8;
      var bitval := p[byte][bit];
      assert BitZ(p, offset + j) == bitval;
      assert FieldBits(p, offset)(j) == bitval;
      value := 2 * value + One(bitval);
    }
  }

  method GetSignedBitfield(p: seq<Byte>, offset: nat, bits: nat) returns (value: int)
    requires offset + bits <= 8 * |p| && 1 <= bits <= 64
    ensures value == SignedField(p, offset, bits)
  {
    var u := GetUnsignedBitfield(p, offset, bits);
    SpelledBound(FieldBits(p, offset), bits);
    Powers(bits);
    value := if u >= TWO63 then u - TWO64 else u;
    if bits < 64 && NthBit(u, bits - 1) {
      TopBit(u, bits);
      value := value - Pow2(bits);   // sets all bits from bits on
    } else if bits < 64 {
      TopBit(u, bits);
    }
  }

  lemma TopBit(u: nat, bits: nat)
    requires bits >= 1 && u < Pow2(bits)
    ensures NthBit(u, bits - 1) <==> u >= Pow2(bits - 1)
  {
    var h := Pow2(bits - 1);
    if u >= h {
      DivUnique(u, h, 1, u - h);
    } else {
      DivUnique(u, h, 0, u);
    }
  }

  method SetUnsignedBitfield(p: array<Byte>, offset: nat, bits: nat, value: nat)
    requires offset + bits <= 8 * p.Length
    modifies p
    ensures p[..] == WriteField(old(p[..]), offset, bits, value)
  {
    for j := 0 to bits
      invariant p[..] == Written(old(p[..]), offset, bits, value, j)
    {
      var bitval := NthBit(value, bits - 1 - j);
      var byte, bit := (offset + j) / 8, (offset + j) % 8;
      ghost var before := p[..];
      p[byte] := p[byte][bit := bitval];
      assert p[..] == SetBitAt(before, offset + j, bitval);
    }
  }

  method SetSignedBitfield(p: array<Byte>, offset: nat, bits: nat, value: int)
    requires offset + bits <= 8 * p.Length
    modifies p
    ensures p[..] == WriteField(old(p[..]), offset, bits, U64(value))
  {
    SetUnsignedBitfield(p, offset, bits, U64(value));
  }

  // ----- powers of two

  lemma PowDivides(k: nat)
    requires k <= 64
    ensures Divides(Pow2(k)) && Pow2(k) <= TWO64
  {
    var n: nat := 64;
    Pow64(n);
    PowAdds(k, n - k);
    ProductDivides(Pow2(k), Pow2(n - k), TWO64);
  }

  lemma ProductDivides(d: nat, q: nat, p: nat)
    requires p == d * q && d >= 1 && q >= 1
    ensures p % d == 0 && d <= p
  {
    assert p == 0 + q * d;
    AddMultiple(0, q, d);
    Apart(q, d);
  }

  lemma PowHalves(k: nat)
    requires k <= 63
    ensures Pow2(k) <= TWO63
  {
    var n: nat := 64;
    Pow64(n);
    PowAdds(k, n - 1 - k);
    Multiples(Pow2(k), 0, Pow2(n - 1 - k));
    assert Pow2(n - 1) == Pow2(n - 1 - k) * Pow2(k);
  }

  lemma Powers(bits: nat)
    requires 1 <= bits <= 64
    ensures bits <= 63 ==> UnsignedMax(Pow2(bits) - 1)
    ensures SignedHalf(Pow2(bits - 1), bits == 64)
    ensures Pow2(bits) == 2 * Pow2(bits - 1)
  {
    PowDivides(bits);
    PowHalves(bits - 1);
    Pow64(64);
    if bits <= 63 {
      PowHalves(bits);
    }
  }

  // ----- BITFIELD

  datatype Kind = Get | Set | Incrby

  /** One subcommand; arg is the increment or the value to set. */
  datatype FieldOp = FieldOp(kind: Kind, signed: bool, bits: nat, off: nat, arg: int, policy: Policy)

  // What the argument parser lets through.
  predicate ValidOp(op: FieldOp) {
    1 <= op.bits <= (if op.signed then 64 else 63) && IsS64(op.arg)
  }

  function OldValue(p: seq<Byte>, op: FieldOp): int
    requires ValidOp(op)
  {
    if op.signed then SignedField(p, op.off, op.bits) else Field(p, op.off, op.bits)
  }

  function Least(op: FieldOp): int
    requires ValidOp(op)
  {
    if op.signed then 0 - Pow2(op.bits - 1) else 0
  }

  function Greatest(op: FieldOp): int
    requires ValidOp(op)
  {
    if op.signed then Pow2(op.bits - 1) - 1 else Pow2(op.bits) - 1
  }

  /** SET under SAT misses the nearest bound: a negative value for an unsigned field, or one so far below a
      signed field that its distance to the maximum leaves the range of int64_t. */
  predicate SaturatesWrong(op: FieldOp)
    requires ValidOp(op)
  {
    op.policy == Sat && if op.signed then op.bits < 64 && Greatest(op) - op.arg >= TWO63 else op.arg < 0
  }

  /** The value a SET or INCRBY stores, on integers without bounds: the exact one if it fits the field, else
      what the policy says, but for a SET that saturates to the wrong end. */
  function NewValue(op: FieldOp, was: int): Settled
    requires ValidOp(op)
  {
    if op.kind == Set && SaturatesWrong(op) then Stored(Greatest(op))
    else Settle(if op.kind == Set then op.arg else was + op.arg, Least(op), Greatest(op), op.policy)
  }

  /** The check on a value to set, in 64-bit arithmetic, decides as NewValue does. */
  lemma SetSettles(op: FieldOp, was: int)
    requires ValidOp(op) && op.kind == Set
    ensures NewValue(op, was)
         == if op.signed then SignedSet(op.arg, Pow2(op.bits - 1), op.bits == 64, op.policy)
            else UnsignedSet(op.arg, Pow2(op.bits) - 1, op.policy)
  {
    Powers(op.bits);
    if op.signed {
      SignedSetExact(op.arg, Pow2(op.bits - 1), op.bits == 64, op.policy);
      if SaturatesWrong(op) {
        SignedSetOtherEnd(op.arg, Pow2(op.bits - 1));
      }
    } else {
      UnsignedSetExact(op.arg, Pow2(op.bits) - 1, op.policy);
      if SaturatesWrong(op) {
        UnsignedSetOtherEnd(op.arg, Pow2(op.bits) - 1);
      }
    }
  }

  function Reply(op: FieldOp, was: int): Option<int>
    requires ValidOp(op)
  {
    if op.kind == Get then Some(was)
    else match NewValue(op, was)
      case Nothing => None
      case Stored(v) => Some(if op.kind == Set then was else v)
  }

  // Writes stay within the string; reads may go past it.
  predicate InReach(p: seq<Byte>, op: FieldOp) {
    ValidOp(op) && (op.kind != Get ==> op.off + op.bits <= 8 * |p|)
  }

  function After(p: seq<Byte>, op: FieldOp): (p': seq<Byte>)
    requires InReach(p, op)
    ensures |p'| == |p|
  {
    if op.kind == Get || NewValue(op, OldValue(p, op)) == Nothing then p
    else WriteField(p, op.off, op.bits, U64(NewValue(op, OldValue(p, op)).value))
  }

  /** What a list of subcommands answers and leaves. */
  function RunOps(p: seq<Byte>, ops: seq<FieldOp>): (seq<Option<int>>, seq<Byte>)
    requires forall i :: 0 <= i < |ops| ==> InReach(p, ops[i])
    decreases |ops|
  {
    if ops == [] then ([], p)
    else
      var first := ops[0];
      assert InReach(p, first);
      assert forall i :: 0 <= i < |ops[1..]| ==> ops[1..][i] == ops[i + 1] && InReach(p, ops[i + 1]);
      var (replies, p') := RunOps(After(p, first), ops[1..]);
      ([Reply(first, OldValue(p, first))] + replies, p')
  }

  lemma OldValueRange(p: seq<Byte>, op: FieldOp)
    requires ValidOp(op)
    ensures Least(op) <= OldValue(p, op) <= Greatest(op)
  {
    SpelledBound(FieldBits(p, op.off), op.bits);
    Powers(op.bits);
  }

  /** A subcommand that stores leaves exactly its new value in the field, read back with the same sign. */
  lemma StoredIsRead(p: seq<Byte>, op: FieldOp)
    requires InReach(p, op) && op.kind != Get && NewValue(op, OldValue(p, op)).Stored?
    ensures OldValue(After(p, op), op) == NewValue(op, OldValue(p, op)).value
  {
    var v := NewValue(op, OldValue(p, op)).value;
    NewValueRange(op, OldValue(p, op));
    GetAfterSet(p, op.off, op.bits, U64(v));
    Powers(op.bits);
    PowDivides(op.bits);
    ModMod(v, Pow2(op.bits));
    if v >= 0 {
      RemainderUnique(v, Pow2(op.bits), 0, v);
    } else {
      RemainderUnique(v, Pow2(op.bits), -1, v + Pow2(op.bits));
    }
  }

  lemma NewValueRange(op: FieldOp, was: int)
    requires ValidOp(op) && NewValue(op, was).Stored?
    ensures Least(op) <= NewValue(op, was).value <= Greatest(op)
  {
    Powers(op.bits);
  }

  // ----- the command

  lemma WindowBit(p: seq<Byte>, buf: seq<Byte>, off: nat, j: nat)
    requires |buf| == 9 && j < 64
    requires forall i :: 0 <= i < 9 ==> buf[i] == if i + off / 8 < |p| then p[i + off / 8] else Zeros(8)
    ensures BitZ(buf, off % 8 + j) == BitZ(p, off + j)
  {
    var k := (off % 8 + j) / 8;
    assert (off + j) / 8 == off / 8 + k && (off + j) % 8 == (off % 8 + j) % 8;
    assert buf[k] == if k + off / 8 < |p| then p[k + off / 8] else Zeros(8);
  }

  /** Reading in the window is reading in the string continued by zeros. */
  lemma WindowField(p: seq<Byte>, buf: seq<Byte>, off: nat, bits: nat)
    requires |buf| == 9 && bits <= 64
    requires forall i :: 0 <= i < 9 ==> buf[i] == if i + off / 8 < |p| then p[i + off / 8] else Zeros(8)
    ensures Field(buf, off % 8, bits) == Field(p, off, bits)
  {
    var f, g := FieldBits(buf, off % 8), FieldBits(p, off);
    forall j | 0 <= j < bits
      ensures f(j) == g(j)
    {
      WindowBit(p, buf, off, j);
    }
    SpelledSame(f, g, bits);
  }

  /** GET through a copy of nine bytes. */
  method GetField(p: array<Byte>, op: FieldOp) returns (value: int)
    requires ValidOp(op)
    ensures value == OldValue(p[..], op)
  {
    var buf := new Byte[9](_ => Zeros(8));
    var byte := op.off / 8;
    var i := 0;
    while i < 9
      invariant 0 <= i <= 9
      invariant forall k :: 0 <= k < 9 ==> buf[k] == if k < i && k + byte < p.Length then p[k + byte] else Zeros(8)
    {
      if i + byte >= p.Length {
        break;
      }
      buf[i] := p[i + byte];
      i := i + 1;
    }
    WindowField(p[..], buf[..], op.off, op.bits);
    if op.signed {
      value := GetSignedBitfield(buf[..], op.off - 8 * byte, op.bits);
    } else {
      value := GetUnsignedBitfield(buf[..], op.off - 8 * byte, op.bits);
    }
  }

  /** The overflow check and what it decides: the value to store, unless it failed, and the reply. */
  method DecideSigned(op: FieldOp, oldval: int) returns (newval: int, failed: bool)
    requires ValidOp(op) && op.signed && op.kind != Get && Least(op) <= oldval <= Greatest(op)
    ensures NewValue(op, oldval) == if failed then Nothing else Stored(newval)
  {
    var half := Pow2(op.bits - 1);
    Powers(op.bits);
    var verdict;
    if op.kind == Incrby {
      SignedIncr(oldval, op.arg, half, op.bits == 64, op.policy);
      verdict := CheckSigned(oldval, op.arg, half, op.bits == 64, op.policy);
      newval := if verdict.code != 0 then verdict.limit else oldval + op.arg;
    } else {
      SetSettles(op, oldval);
      verdict := CheckSigned(op.arg, 0, half, op.bits == 64, op.policy);
      newval := if verdict.code != 0 then verdict.limit else op.arg;
    }
    failed := verdict.code != 0 && op.policy == Fail;
  }

  method DecideUnsigned(op: FieldOp, oldval: nat) returns (newval: int, failed: bool)
    requires ValidOp(op) && !op.signed && op.kind != Get && oldval <= Greatest(op)
    ensures NewValue(op, oldval) == if failed then Nothing else Stored(newval)
  {
    var max := Pow2(op.bits) - 1;
    Powers(op.bits);
    var verdict;
    if op.kind == Incrby {
      UnsignedIncr(oldval, op.arg, max, op.policy);
      verdict := CheckUnsigned(oldval, op.arg, max, op.policy);
      newval := if verdict.code != 0 then verdict.limit else oldval + op.arg;
    } else {
      SetSettles(op, oldval);
      verdict := CheckUnsigned(U64(op.arg), 0, max, op.policy);
      newval := if verdict.code != 0 then verdict.limit else U64(op.arg);
    }
    failed := verdict.code != 0 && op.policy == Fail;
  }

  /** SET and INCRBY: fetch, decide, store. */
  method FetchAndStore(p: array<Byte>, op: FieldOp) returns (reply: Option<int>)
    requires InReach(p[..], op) && op.kind != Get
    modifies p
    ensures reply == old(Reply(op, OldValue(p[..], op))) && p[..] == old(After(p[..], op))
  {
    var oldval, newval, failed;
    OldValueRange(p[..], op);
    if op.signed {
      oldval := GetSignedBitfield(p[..], op.off, op.bits);
      newval, failed := DecideSigned(op, oldval);
    } else {
      var u := GetUnsignedBitfield(p[..], op.off, op.bits);
      oldval := u;
      newval, failed := DecideUnsigned(op, u);
    }
    if failed {
      return None;
    }
    if op.signed {
      SetSignedBitfield(p, op.off, op.bits, newval);
    } else {
      StoredFits(op, oldval);
      SetUnsignedBitfield(p, op.off, op.bits, newval);
    }
    return Some(if op.kind == Set then oldval else newval);
  }

  lemma StoredFits(op: FieldOp, was: int)
    requires ValidOp(op) && !op.signed && NewValue(op, was).Stored?
    ensures 0 <= NewValue(op, was).value && U64(NewValue(op, was).value) == NewValue(op, was).value
  {
    NewValueRange(op, was);
    Powers(op.bits);
  }

  // The last bit that some subcommand writes.
  function HighestWrite(ops: seq<FieldOp>): nat
    requires forall i :: 0 <= i < |ops| ==> ValidOp(ops[i])
  {
    if ops == [] then 0
    else
      var k := |ops| - 1;
      var h := HighestWrite(ops[..k]);
      if ops[k].kind != Get && h < ops[k].off + ops[k].bits - 1 then ops[k].off + ops[k].bits - 1 else h
  }

  predicate Writes(ops: seq<FieldOp>) {
    exists i :: 0 <= i < |ops| && ops[i].kind != Get
  }

  function Grown(p: seq<Byte>, n: nat): (p': seq<Byte>)
    ensures |p'| == if |p| < n then n else |p|
    ensures forall i :: 0 <= i < |p'| ==> p'[i] == if i < |p| then p[i] else Zeros(8)
  {
    if |p| < n then p + seq(n - |p|, _ => Zeros(8)) else p
  }

  /** The string that the subcommands work on: long enough for all of their writes. */
  function Room(p: seq<Byte>, ops: seq<FieldOp>): seq<Byte>
    requires forall i :: 0 <= i < |ops| ==> ValidOp(ops[i])
  {
    if Writes(ops) then Grown(p, HighestWrite(ops) / 8 + 1) else p
  }

  lemma {:induction false} HighestCovers(ops: seq<FieldOp>, i: nat)
    requires (forall i :: 0 <= i < |ops| ==> ValidOp(ops[i])) && i < |ops| && ops[i].kind != Get
    ensures ops[i].off + ops[i].bits - 1 <= HighestWrite(ops)
    decreases |ops|
  {
    var k := |ops| - 1;
    if i < k {
      HighestCovers(ops[..k], i);
    }
  }

  lemma RoomReaches(p: seq<Byte>, ops: seq<FieldOp>)
    requires forall i :: 0 <= i < |ops| ==> ValidOp(ops[i])
    ensures forall i :: 0 <= i < |ops| ==> InReach(Room(p, ops), ops[i])
  {
    forall i | 0 <= i < |ops| && ops[i].kind != Get
      ensures ops[i].off + ops[i].bits <= 8 * |Room(p, ops)|
    {
      HighestCovers(ops, i);
    }
  }

  /** BITFIELD: the subcommands answer and store as on integers without bounds, in order. */
  method BitfieldGeneric(p: seq<Byte>, ops: seq<FieldOp>) returns (replies: seq<Option<int>>, p': seq<Byte>)
    requires forall i :: 0 <= i < |ops| ==> ValidOp(ops[i])
    ensures forall i :: 0 <= i < |ops| ==> InReach(Room(p, ops), ops[i])
    ensures (replies, p') == RunOps(Room(p, ops), ops)
  {
    RoomReaches(p, ops);
    var room := Room(p, ops);
    var a := new Byte[|room|](i requires 0 <= i < |room| => room[i]);
    assert a[..] == room;
    replies := ExecuteAll(a, ops);
    p' := a[..];
  }

  lemma RunStep(p: seq<Byte>, ops: seq<FieldOp>, j: nat)
    requires j < |ops| && forall i :: 0 <= i < |ops| ==> InReach(p, ops[i])
    ensures forall i :: 0 <= i < |ops| ==> InReach(After(p, ops[j]), ops[i])
    ensures RunOps(p, ops[j..]).0 == [Reply(ops[j], OldValue(p, ops[j]))] + RunOps(After(p, ops[j]), ops[j + 1..]).0
    ensures RunOps(p, ops[j..]).1 == RunOps(After(p, ops[j]), ops[j + 1..]).1
  {
    assert ops[j..][0] == ops[j] && ops[j..][1..] == ops[j + 1..];
  }

  // After j subcommands these replies are there, and the rest of the run makes up what is wanted.
  ghost predicate Pending(
      p: seq<Byte>, ops: seq<FieldOp>, j: nat, replies: seq<Option<int>>, want: (seq<Option<int>>, seq<Byte>))
  {
    && j <= |ops|
    && (forall i :: 0 <= i < |ops| ==> InReach(p, ops[i]))
    && want.0 == replies + RunOps(p, ops[j..]).0 && want.1 == RunOps(p, ops[j..]).1
  }

  lemma PendingStep(
      p: seq<Byte>, ops: seq<FieldOp>, j: nat, replies: seq<Option<int>>, want: (seq<Option<int>>, seq<Byte>),
      reply: Option<int>, p': seq<Byte>)
    requires Pending(p, ops, j, replies, want) && j < |ops|
    requires reply == Reply(ops[j], OldValue(p, ops[j])) && p' == After(p, ops[j])
    ensures Pending(p', ops, j + 1, replies + [reply], want)
  {
    RunStep(p, ops, j);
    var rest := RunOps(p', ops[j + 1..]).0;
    assert replies + ([reply] + rest) == (replies + [reply]) + rest;
  }

  lemma PendingEnds(p: seq<Byte>, ops: seq<FieldOp>, replies: seq<Option<int>>, want: (seq<Option<int>>, seq<Byte>))
    requires Pending(p, ops, |ops|, replies, want)
    ensures (replies, p) == want
  {
    assert ops[|ops|..] == [];
    assert RunOps(p, ops[|ops|..]) == ([], p);
    assert replies + [] == replies;
  }

  lemma PendingStarts(p: seq<Byte>, ops: seq<FieldOp>)
    requires forall i :: 0 <= i < |ops| ==> InReach(p, ops[i])
    ensures Pending(p, ops, 0, [], RunOps(p, ops))
  {
    assert ops[0..] == ops;
  }

  method ExecuteAll(a: array<Byte>, ops: seq<FieldOp>) returns (replies: seq<Option<int>>)
    requires forall i :: 0 <= i < |ops| ==> InReach(a[..], ops[i])
    modifies a
    ensures (replies, a[..]) == old(RunOps(a[..], ops))
  {
    replies := [];
    ghost var want := RunOps(a[..], ops);
    PendingStarts(a[..], ops);
    var j := 0;
    while j < |ops|
      invariant 0 <= j <= |ops| && Pending(a[..], ops, j, replies, want)
    {
      ghost var before := a[..];
      var reply := Execute(a, ops[j]);
      PendingStep(before, ops, j, replies, want, reply, a[..]);
      replies := replies + [reply];
      j := j + 1;
    }
    PendingEnds(a[..], ops, replies, want);
  }

  method Execute(a: array<Byte>, op: FieldOp) returns (reply: Option<int>)
    requires InReach(a[..], op)
    modifies a
    ensures reply == old(Reply(op, OldValue(a[..], op))) && a[..] == old(After(a[..], op))
  {
    if op.kind == Get {
      var value := GetField(a, op);
      return Some(value);
    }
    reply := FetchAndStore(a, op);
  }
}
