/** BITPOS: the search of redisBitpos within a range of bytes or bits. */
module BitopsPosCommand {
  import opened BitStrings
  import opened Bitmap
  import opened BitopsPos

  datatype Range = All | From(start: int) | Between(start: int, end: int, isBit: bool)

  /** The positions that a range selects: from the first up to the second. */
  function Positions(range: Range, len: nat): (nat, nat) {
    match range
    case All => (0, 8 * len)
    case From(start) => (8 * FromEnd(start, len), 8 * len)
    case Between(start, end, isBit) =>
      var total := if isBit then 8 * len else len;
      var unit := if isBit then 1 else 8;
      var hi := FromEnd(end, total);
      (unit * FromEnd(start, total), unit * (if hi < total then hi + 1 else total))
  }

  /** Which positions a range selects, in bits or in bytes: from its first index to its last one, negative ones
      counted from the end. */
  lemma PositionsExact(start: int, end: int, isBit: bool, len: nat, pos: nat)
    ensures var (lo, hi) := Positions(Between(start, end, isBit), len);
      var total, u := if isBit then 8 * len else len, if isBit then pos else pos / 8;
      lo <= pos < hi <==> pos < 8 * len && NotBefore(u, start, total) && NotAfter(u, end, total)
    ensures var (lo, hi) := Positions(From(start), len);
      lo <= pos < hi <==> pos < 8 * len && NotBefore(pos / 8, start, len)
  {
  }

  /** What BITPOS answers: the first position in the range that holds the bit; without an explicit end, a
      clear bit that is not there is found right after the string. */
  function Answer(p: seq<Byte>, range: Range, bit: bool): int {
    var (lo, hi) := Positions(range, |p|);
    if hi <= lo then -1
    else
      var r := Find(BitsOf(p), lo, hi, bit);
      if r != -1 || bit || range.Between? then r else 8 * |p|
  }

  /** The answer spelled out. */
  lemma AnswerIsFirst(p: seq<Byte>, range: Range, bit: bool)
    ensures var (lo, hi) := Positions(range, |p|);
      var r := Answer(p, range, bit);
      if lo <= r < hi then BitZ(p, r) == bit && forall i :: lo <= i < r ==> BitZ(p, i) != bit
      else
        && (forall i :: lo <= i < hi ==> BitZ(p, i) != bit)
        && r == if lo < hi && !bit && !range.Between? then 8 * |p| else -1
  {
    var (lo, hi) := Positions(range, |p|);
    var f := BitsOf(p);
    FindIsFirst(f, lo, hi, bit);
    assert forall i {:trigger BitZ(p, i)} :: lo <= i < hi ==> f(i) == BitZ(p, i);
  }

  // ----- one masked byte

  // Outside the range the byte cannot match.
  function MaskOut(b: Byte, mask: Byte, bit: bool): (r: Byte)
    ensures forall i :: 0 <= i < 8 ==> r[i] == if mask[i] then !bit else b[i]
  {
    if bit then And(b, Not(mask)) else Or(b, mask)
  }

  lemma MaskedFind(b: Byte, tmp: Byte, lo: nat, hi: nat, bit: bool)
    requires lo <= hi <= 8 && forall i :: 0 <= i < 8 ==> tmp[i] == if lo <= i < hi then b[i] else !bit
    ensures Find(BitsOf([tmp]), 0, 8, bit) == Find(BitsOf([b]), lo, hi, bit)
  {
    var f, g := BitsOf([b]), BitsOf([tmp]);
    forall i | 0 <= i < 8
      ensures g(i) == if lo <= i < hi then f(i) else !bit
    {
      ByteAt([b], 0, i);
      ByteAt([tmp], 0, i);
    }
    FindSplit(g, 0, lo, 8, bit);
    FindSplit(g, lo, hi, 8, bit);
    NoneIsFind(g, 0, lo, bit);
    NoneIsFind(g, hi, 8, bit);
    FindShift(g, f, lo, hi, 0, bit);
  }

  // A search within some bytes of the string.
  lemma PartFind(p: seq<Byte>, i: nat, j: nat, lo: nat, hi: nat, bit: bool)
    requires i <= j <= |p| && hi <= 8 * (j - i)
    ensures var r := Find(BitsOf(p[i..j]), lo, hi, bit);
      Find(BitsOf(p), lo + 8 * i, hi + 8 * i, bit) == if r == -1 then -1 else r + 8 * i
  {
    SliceBits(p, i, j);
    ShiftedFind(p[i..j], p, 8 * (j - i), 8 * i, lo, hi, bit);
  }

  lemma ShiftedFind(part: seq<Byte>, p: seq<Byte>, n: nat, d: nat, lo: nat, hi: nat, bit: bool)
    requires Shifted(BitsOf(part), BitsOf(p), n, d) && hi <= n
    ensures var r := Find(BitsOf(part), lo, hi, bit);
      Find(BitsOf(p), lo + d, hi + d, bit) == if r == -1 then -1 else r + d
  {
    FindShift(BitsOf(part), BitsOf(p), lo, hi, d, bit);
  }

  /** The position relative to byte i at which the bits lo up to hi of that byte hold the bit, as redisBitpos
      returns it. */
  ghost function InByte(p: seq<Byte>, i: nat, lo: nat, hi: nat, bit: bool): int
    requires i < |p|
  {
    var r := Find(BitsOf(p), 8 * i + lo, 8 * i + hi, bit);
    Padded(if r == -1 then -1 else r - 8 * i, 1, bit)
  }

  method SearchByte(
      p: seq<Byte>, i: nat, tmp: Byte, ghost lo: nat, ghost hi: nat, bit: bool) returns (pos: int, panicked: bool)
    requires i < |p| && lo <= hi <= 8
    requires forall j :: 0 <= j < 8 ==> tmp[j] == if lo <= j < hi then p[i][j] else !bit
    ensures !panicked && pos == InByte(p, i, lo, hi, bit)
  {
    pos, panicked := RedisBitpos(0, [tmp], bit);
    MaskedFind(p[i], tmp, lo, hi, bit);
    assert p[i..i + 1] == [p[i]];
    PartFind(p, i, i + 1, lo, hi, bit);
  }

  // ----- the range

  /** The code after the label result. */
  function Result(pos: int, start: nat, bytes: nat, bit: bool, endGiven: bool): int {
    if endGiven && !bit && pos == 8 * bytes then -1 else if pos != -1 then pos + 8 * start else -1
  }

  // What is found from lo up to hi, or what stands for nothing.
  ghost function Outcome(p: seq<Byte>, lo: nat, hi: nat, bit: bool, endGiven: bool, past: nat): int {
    var r := Find(BitsOf(p), lo, hi, bit);
    if r != -1 || bit || endGiven then r else past
  }

  lemma Concluded(p: seq<Byte>, lo: nat, hi: nat, bit: bool, endGiven: bool, start: nat, bytes: nat, pos: int)
    requires 8 * start <= lo <= hi <= 8 * (start + bytes)
    requires var r := Find(BitsOf(p), lo, hi, bit); pos == Padded(if r == -1 then -1 else r - 8 * start, bytes, bit)
    ensures Result(pos, start, bytes, bit, endGiven) == Outcome(p, lo, hi, bit, endGiven, 8 * (start + bytes))
  {
    FindIsFirst(BitsOf(p), lo, hi, bit);
  }

  method FirstByte(p: seq<Byte>, start: nat, k: nat, m: nat, single: bool, bit: bool) returns (pos: int, panicked: bool)
    requires start < |p| && 0 < k < 8 && m < 8 && (single ==> k <= m)
    ensures !panicked && pos == InByte(p, start, k, if single then m + 1 else 8, bit)
  {
    var first := FromBv(FirstMask(k));
    var tmp := MaskOut(p[start], first, bit);
    forall j | 0 <= j < 8 ensures first[j] <==> j < k { MaskBits(k, j); }
    var last := FromBv(LastMask(m));
    forall j | 0 <= j < 8 ensures last[j] <==> j > m { MaskBits(m, j); }
    if single {
      tmp := MaskOut(tmp, last, bit);
    }
    pos, panicked := SearchByte(p, start, tmp, k, if single then m + 1 else 8, bit);
  }

  method LastByte(p: seq<Byte>, end: nat, m: nat, bit: bool) returns (pos: int, panicked: bool)
    requires end < |p| && m < 8
    ensures !panicked && pos == InByte(p, end, 0, m + 1, bit)
  {
    var last := FromBv(LastMask(m));
    forall j | 0 <= j < 8 ensures last[j] <==> j > m { MaskBits(m, j); }
    pos, panicked := SearchByte(p, end, MaskOut(p[end], last, bit), 0, m + 1, bit);
  }

  // The bytes from start on, n of them.
  method WholeBytes(addr: nat, p: seq<Byte>, start: nat, n: nat, bit: bool) returns (pos: int, panicked: bool)
    requires start + n <= |p|
    ensures !panicked
    ensures var r := Find(BitsOf(p), 8 * start, 8 * (start + n), bit);
      pos == Padded(if r == -1 then -1 else r - 8 * start, n, bit)
    ensures pos <= 8 * n
    ensures pos == -1 || pos == 8 * n <==> Find(BitsOf(p), 8 * start, 8 * (start + n), bit) == -1
  {
    pos, panicked := RedisBitpos(addr + start, p[start..start + n], bit);
    PartFind(p, start, start + n, 0, 8 * n, bit);
    FindIsFirst(BitsOf(p[start..start + n]), 0, 8 * n, bit);
  }

  /** Whole bytes, then the last one if the range ends inside it. */
  method SearchRest(
      addr: nat, p: seq<Byte>, start: nat, end: nat, m: nat, bit: bool, endGiven: bool) returns (r: int, panicked: bool)
    requires start <= end < |p| && m < 8
    ensures !panicked && r == Outcome(p, 8 * start, 8 * end + m + 1, bit, endGiven, 8 * (end + 1))
  {
    var bytes := end - start + 1;
    var curbytes := bytes - (if m != 7 then 1 else 0);
    if curbytes > 0 {
      var pos, bad := WholeBytes(addr, p, start, curbytes, bit);
      FindSplit(BitsOf(p), 8 * start, 8 * (start + curbytes), 8 * end + m + 1, bit);
      if bytes == curbytes || (pos != -1 && pos != 8 * curbytes) {
        Concluded(p, 8 * start, 8 * (start + curbytes), bit, endGiven, start, curbytes, pos);
        return Result(pos, start, bytes, bit, endGiven), bad;
      }
    }
    var pos, bad := LastByte(p, end, m, bit);
    Concluded(p, 8 * end, 8 * end + m + 1, bit, endGiven, end, 1, pos);
    return Result(pos, end, 1, bit, endGiven), bad;
  }

  method SearchRange(addr: nat, p: seq<Byte>, start: nat, end: nat, k: nat, m: nat, bit: bool, endGiven: bool)
      returns (r: int, panicked: bool)
    requires start <= end < |p| && k < 8 && m < 8 && 8 * start + k <= 8 * end + m
    ensures !panicked && r == Outcome(p, 8 * start + k, 8 * end + m + 1, bit, endGiven, 8 * (end + 1))
  {
    if k != 0 {
      var single := start == end;
      var pos, bad := FirstByte(p, start, k, m, single, bit);
      ghost var hi := if single then 8 * end + m + 1 else 8 * start + 8;
      FindIsFirst(BitsOf(p), 8 * start + k, hi, bit);
      FindSplit(BitsOf(p), 8 * start + k, hi, 8 * end + m + 1, bit);
      if single || (pos != -1 && pos != 8) {
        Concluded(p, 8 * start + k, hi, bit, endGiven, start, 1, pos);
        var bytes := end - start + 1;
        return Result(pos, start, bytes, bit, endGiven), bad;
      }
      r, panicked := SearchRest(addr, p, start + 1, end, m, bit, endGiven);
    } else {
      r, panicked := SearchRest(addr, p, start, end, m, bit, endGiven);
    }
  }

  /** BITPOS on a key; a missing key is all zeros. */
  method BitposCommand(addr: nat, present: bool, p: seq<Byte>, range: Range, bit: bool) returns (r: int, panicked: bool)
    ensures !panicked && r == if present then Answer(p, range, bit) else if bit then -1 else 0
  {
    if !present {
      return (if bit then -1 else 0), false;
    }
    var start, end, k, m := ClipRange(range, |p|);
    if start > end {
      return -1, false;
    }
    r, panicked := SearchRange(addr, p, start, end, k, m, bit, range.Between?);
  }

  /** Clips the range and turns it into bytes; k and m say where it starts and ends in its first and last. */
  method ClipRange(range: Range, len: nat) returns (start: int, end: int, k: nat, m: nat)
    ensures var (lo, hi) := Positions(range, len);
      if start > end then hi <= lo
      else 0 <= start && end < len && k < 8 && m < 8 && lo == 8 * start + k && hi == 8 * end + m + 1 && lo < hi
    ensures !range.Between? && start <= end ==> end == len - 1
  {
    start, end, k, m := 0, len - 1, 0, 7;
    if !range.All? {
      var isBit := range.Between? && range.isBit;
      var totlen := if isBit then 8 * len else len;
      end := if range.Between? then range.end else len - 1;
      start, end := ClipIndexes(range.start, end, totlen);
      if isBit && start <= end {
        k, m := start % 8, end % 8;
        start, end := start / 8, end / 8;
      }
    }
  }
}
