/** What BITFIELD answers and stores, told by GETs of the same field before and after. */
module BitopsFieldReplies {
  import opened Options
  import opened BitStrings
  import opened Bitmap
  import opened BitopsField
  import opened BitopsOverflow
  import opened BitopsFieldCommand

  ghost predicate AllReach(p: seq<Byte>, ops: seq<FieldOp>) {
    forall i :: 0 <= i < |ops| ==> InReach(p, ops[i])
  }

  /** A GET of the field that op works on. */
  function GetOf(op: FieldOp): FieldOp {
    op.(kind := Get)
  }

  // ----- lists of subcommands, split at a place

  lemma {:induction false} RunLength(p: seq<Byte>, ops: seq<FieldOp>)
    requires AllReach(p, ops)
    ensures |RunOps(p, ops).0| == |ops| && |RunOps(p, ops).1| == |p|
    decreases |ops|
  {
    if ops != [] {
      RestReaches(p, ops);
      RunLength(After(p, ops[0]), ops[1..]);
    }
  }

  lemma RestReaches(p: seq<Byte>, ops: seq<FieldOp>)
    requires AllReach(p, ops) && ops != []
    ensures InReach(p, ops[0]) && AllReach(After(p, ops[0]), ops[1..])
  {
    assert forall i :: 0 <= i < |ops[1..]| ==> ops[1..][i] == ops[i + 1];
  }

  // A string as long takes the same subcommands.
  lemma SameReach(p: seq<Byte>, q: seq<Byte>, ops: seq<FieldOp>)
    requires AllReach(p, ops) && |q| == |p|
    ensures AllReach(q, ops)
  {
  }

  lemma PartsReach(p: seq<Byte>, a: seq<FieldOp>, b: seq<FieldOp>)
    requires AllReach(p, a + b)
    ensures AllReach(p, a) && AllReach(p, b)
  {
    assert forall i :: 0 <= i < |a| ==> (a + b)[i] == a[i];
    assert forall i :: 0 <= i < |b| ==> (a + b)[|a| + i] == b[i];
  }

  lemma {:induction false} RunAppended(p: seq<Byte>, a: seq<FieldOp>, b: seq<FieldOp>)
    requires AllReach(p, a + b)
    ensures AllReach(p, a) && AllReach(RunOps(p, a).1, b)
    ensures RunOps(p, a + b).0 == RunOps(p, a).0 + RunOps(RunOps(p, a).1, b).0
    ensures RunOps(p, a + b).1 == RunOps(RunOps(p, a).1, b).1
    decreases |a|
  {
    PartsReach(p, a, b);
    RunLength(p, a);
    SameReach(p, RunOps(p, a).1, b);
    if a == [] {
      assert a + b == b;
    } else {
      assert (a + b)[0] == a[0] && (a + b)[1..] == a[1..] + b;
      RestReaches(p, a + b);
      RunAppended(After(p, a[0]), a[1..], b);
    }
  }

  lemma RunOne(p: seq<Byte>, op: FieldOp)
    requires InReach(p, op)
    ensures AllReach(p, [op])
    ensures RunOps(p, [op]) == ([Reply(op, OldValue(p, op))], After(p, op))
  {
    assert [op][1..] == [] && [op][0] == op;
    assert RunOps(After(p, op), []) == ([], After(p, op));
    assert [Reply(op, OldValue(p, op))] + [] == [Reply(op, OldValue(p, op))];
  }

  lemma RunTwo(p: seq<Byte>, a: FieldOp, b: FieldOp)
    requires InReach(p, a) && InReach(p, b)
    ensures AllReach(p, [a, b]) && InReach(After(p, a), b)
    ensures RunOps(p, [a, b]).0 == [Reply(a, OldValue(p, a)), Reply(b, OldValue(After(p, a), b))]
  {
    assert [a] + [b] == [a, b];
    RunAppended(p, [a], [b]);
    RunOne(p, a);
    RunOne(After(p, a), b);
  }

  // ----- replies

  /** GET answers the integer in the field, always, and changes nothing. */
  lemma GetAnswers(p: seq<Byte>, op: FieldOp)
    requires ValidOp(op) && op.kind == Get
    ensures AllReach(p, [op]) && RunOps(p, [op]) == ([Some(OldValue(p, op))], p)
  {
    RunOne(p, op);
  }

  /** A SET that stores answers what a GET of the same field answers just before it. */
  lemma SetAnswersOld(p: seq<Byte>, op: FieldOp)
    requires InReach(p, op) && op.kind == Set
    ensures AllReach(p, [GetOf(op), op])
    ensures var r := RunOps(p, [GetOf(op), op]).0; |r| == 2 && (r[1].Some? ==> r[1] == r[0])
  {
    RunTwo(p, GetOf(op), op);
  }

  /** An INCRBY that stores answers what a GET of the same field answers just after it. */
  lemma IncrbyAnswersNew(p: seq<Byte>, op: FieldOp)
    requires InReach(p, op) && op.kind == Incrby
    ensures AllReach(p, [op, GetOf(op)])
    ensures var r := RunOps(p, [op, GetOf(op)]).0; |r| == 2 && (r[0].Some? ==> r[0] == r[1])
  {
    RunTwo(p, op, GetOf(op));
    if NewValue(op, OldValue(p, op)).Stored? {
      StoredIsRead(p, op);
    }
  }

  /** The exact value of a SET or an INCRBY, for a field that holds was. */
  function Exact(op: FieldOp, was: int): int {
    if op.kind == Set then op.arg else was + op.arg
  }

  /** A reply is missing iff the policy is FAIL and the exact value lies outside the field; then nothing changes. */
  lemma MissingExactly(p: seq<Byte>, op: FieldOp)
    requires InReach(p, op) && op.kind != Get
    ensures AllReach(p, [op])
    ensures var r := RunOps(p, [op]);
      && |r.0| == 1
      && (r.0[0] == None <==> op.policy == Fail && !(Least(op) <= Exact(op, OldValue(p, op)) <= Greatest(op)))
      && (r.0[0] == None ==> r.1 == p)
  {
    RunOne(p, op);
    OldValueRange(p, op);
  }

  // ----- what is stored

  /** What a field may hold after the exact value x was to be stored in it: x itself if it fits, else a value of
      the field that is the same modulo its size, or one that is as near to x as can be. */
  ghost predicate Fits(op: FieldOp, x: int, v: int)
    requires ValidOp(op)
  {
    && Least(op) <= v <= Greatest(op)
    && (Least(op) <= x <= Greatest(op) ==> v == x)
    && (op.policy == Wrap ==> exists k :: v - x == k * Pow2(op.bits))
    && (op.policy == Sat && !(op.kind == Set && SaturatesWrong(op)) ==>
         forall u :: Least(op) <= u <= Greatest(op) ==> Distance(x, v) <= Distance(x, u))
    && (op.kind == Set && SaturatesWrong(op) ==> v == Greatest(op))
  }

  function Distance(a: int, b: int): nat {
    if a < b then b - a else a - b
  }

  lemma WrapsBy(x: int, min: int, size: nat) returns (k: int)
    requires size > 0
    ensures (x - min) % size + min - x == k * size
  {
    k := 0 - (x - min) / size;
    assert x - min == size * ((x - min) / size) + (x - min) % size;
  }

  lemma NewValueFits(op: FieldOp, was: int)
    requires ValidOp(op) && op.kind != Get && NewValue(op, was).Stored?
    ensures Fits(op, Exact(op, was), NewValue(op, was).value)
  {
    var x := Exact(op, was);
    NewValueRange(op, was);
    Powers(op.bits);
    assert Greatest(op) - Least(op) + 1 == Pow2(op.bits);
    var k := WrapsBy(x, Least(op), Pow2(op.bits));
    if op.policy == Wrap {
      var v := NewValue(op, was).value;
      if v == x {
        assert v - x == 0 * Pow2(op.bits);
      } else {
        assert v - x == k * Pow2(op.bits);
      }
    }
  }

  /** A SET or an INCRBY that stores leaves a value that fits, and changes no bit outside the field. */
  lemma StoresFitting(p: seq<Byte>, op: FieldOp)
    requires InReach(p, op) && op.kind != Get
    ensures AllReach(p, [op])
    ensures var r := RunOps(p, [op]);
      && |r.0| == 1 && |r.1| == |p|
      && (r.0[0].Some? ==> Fits(op, Exact(op, OldValue(p, op)), OldValue(r.1, op)))
      && forall k :: 0 <= k < 8 * |p| && !(op.off <= k < op.off + op.bits) ==> Bit(r.1, k) == Bit(p, k)
  {
    RunOne(p, op);
    var decided := NewValue(op, OldValue(p, op));
    if decided.Stored? {
      NewValueFits(op, OldValue(p, op));
      StoredIsRead(p, op);
      OutsideUnchanged(p, op.off, op.bits, U64(decided.value));
    }
  }

  // ----- the format of a field

  /** A field of one bit is that bit. */
  lemma OneBitField(p: seq<Byte>, off: nat)
    ensures Field(p, off, 1) == One(BitZ(p, off))
  {
    assert Spelled(FieldBits(p, off), 0) == 0;
  }

  /** A field is the field of its first bits, shifted, plus the field of the others: the first bit is the highest. */
  lemma {:induction false} FieldJoins(p: seq<Byte>, off: nat, a: nat, b: nat)
    ensures Field(p, off, a + b) == Field(p, off, a) * Pow2(b) + Field(p, off + a, b)
    decreases b
  {
    if b > 0 {
      FieldJoins(p, off, a, b - 1);
      var bit := One(BitZ(p, off + a + (b - 1)));
      LastBit(p, off, a + b, bit);
      LastBit(p, off + a, b, bit);
      DoubleSum(Field(p, off, a), Pow2(b - 1), Field(p, off + a, b - 1), bit);
      assert a + b - 1 == a + (b - 1);
    }
  }

  lemma LastBit(p: seq<Byte>, off: nat, bits: nat, bit: nat)
    requires bits > 0 && bit == One(BitZ(p, off + (bits - 1)))
    ensures Field(p, off, bits) == 2 * Field(p, off, bits - 1) + bit
  {
  }

  lemma DoubleSum(x: nat, d: nat, y: nat, bit: nat)
    ensures 2 * (x * d + y) + bit == x * (2 * d) + (2 * y + bit)
  {
  }

  /** A signed field is the number of its range that is the same modulo its size. */
  lemma SignedFieldMeans(p: seq<Byte>, off: nat, bits: nat)
    requires 1 <= bits <= 64
    ensures var u, v := Field(p, off, bits), SignedField(p, off, bits);
      0 - Pow2(bits - 1) <= v < Pow2(bits - 1) && (v == u || v == u - Pow2(bits))
  {
    SpelledBound(FieldBits(p, off), bits);
  }

  // ----- the room

  /** The string grows no further than some write needs. */
  lemma RoomLeast(p: seq<Byte>, ops: seq<FieldOp>, q: seq<Byte>)
    requires (forall i :: 0 <= i < |ops| ==> ValidOp(ops[i])) && |q| >= |p| && AllReach(q, ops)
    ensures |Room(p, ops)| <= |q|
  {
    if Writes(ops) {
      HighestWithin(ops, 8 * |q|);
    }
  }

  lemma {:induction false} HighestWithin(ops: seq<FieldOp>, n: nat)
    requires forall i :: 0 <= i < |ops| ==> ValidOp(ops[i])
    requires forall i :: 0 <= i < |ops| && ops[i].kind != Get ==> ops[i].off + ops[i].bits <= n
    ensures if Writes(ops) then HighestWrite(ops) < n else HighestWrite(ops) == 0
    decreases |ops|
  {
    if ops != [] {
      var k := |ops| - 1;
      HighestWithin(ops[..k], n);
      assert Writes(ops) <==> Writes(ops[..k]) || ops[k].kind != Get by {
        if i :| 0 <= i < |ops| && ops[i].kind != Get && i < k {
          assert ops[..k][i].kind != Get;
        }
        if i :| 0 <= i < k && ops[..k][i].kind != Get {
          assert ops[i].kind != Get;
        }
      }
    }
  }
}
