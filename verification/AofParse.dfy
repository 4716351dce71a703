/** Reading one command of an append-only file, and what a cut through it looks like. */
module AofParse {
  import opened Equality
  import opened AofFormat

  /** Arguments read, or the end of the file in the middle of one, or something that is none. */
  datatype Args = Args(args: seq<Bytes>, rest: Bytes) | Short | Bad

  /** The argument loop of loadSingleAppendOnlyFile. The two bytes after an argument are skipped
      unseen; a negative length cannot be allocated. */
  function ReadArgs(r: Bytes, n: nat): (a: Args)
    ensures a.Args? ==> |a.args| == n && |a.rest| <= |r|
    decreases n
  {
    if n == 0 then Args([], r)
    else if r == "" then Short
    else
      var k := LineLength(r);
      if r[0] != '$' then Bad
      else
        var len := ParseInt(r[1..k]);
        if len < 0 then Bad
        else if |r| - k < len + 2 then Short
        else
          match ReadArgs(r[k + len + 2..], n - 1)
          case Args(args, rest) => Args([r[k..k + len]] + args, rest)
          case other => other
  }

  /** One turn of the loop of loadSingleAppendOnlyFile, up to the command lookup. */
  datatype Reading = Command(cmd: Cmd, rest: Bytes) | Annotation(rest: Bytes) | AtEnd | CutOff | Malformed

  // fgets met the end of the file: the line has no end and would have fitted.
  predicate MetEnd(r: Bytes)
    requires r != ""
  {
    LineLength(r) == |r| < LINE_MAX && r[|r| - 1] != '\n'
  }

  function ReadCommand(r: Bytes): (c: Reading)
    ensures c.Command? ==> |c.cmd| >= 1 && |c.rest| < |r|
    ensures c.Annotation? ==> |c.rest| < |r|
  {
    if r == "" then AtEnd
    else
      var k := LineLength(r);
      if r[0] == '#' then Annotation(r[k..])
      else if r[0] != '*' then Malformed
      else if k == 1 || r[1] == '\0' then if MetEnd(r) then CutOff else Malformed
      else
        var argc := ParseInt(r[1..k]);
        if argc < 1 then Malformed
        else
          match ReadArgs(r[k..], argc)
          case Args(args, rest) => Command(args, rest)
          case Short => CutOff
          case Bad => Malformed
  }

  // ----- reading what was written

  // A count is an int and a length a long, so a header always fits the line buffer.
  const INT_MAX: nat := 0x7fff_ffff
  const LONG_MAX: nat := 0x7fff_ffff_ffff_ffff

  predicate Writable(cmd: Cmd) {
    1 <= |cmd| <= INT_MAX && forall i :: 0 <= i < |cmd| ==> |cmd[i]| <= LONG_MAX
  }

  lemma HeaderShape(mark: char, n: nat)
    requires n <= LONG_MAX && mark != '\n'
    ensures var h := Header(mark, n);
      && 4 <= |h| <= 22 && h[0] == mark && h[|h| - 1] == '\n' && h[|h| - 2] == '\r' && h[1] != '\0'
      && forall i :: 0 <= i < |h| - 1 ==> h[i] != '\n'
  {
    assert LONG_MAX < Pow10(19) by {
      assert Pow10(5) == 100000;
      assert Pow10(10) == 10_000_000_000;
      assert Pow10(15) == 1_000_000_000_000_000;
      assert Pow10(19) == 10_000_000_000_000_000_000;
    }
    DigitsShort(n, 19);
  }

  // A header at the front of r is one line, and holds its number.
  lemma ReadHeader(mark: char, n: nat, t: Bytes)
    requires n <= LONG_MAX && mark != '\n'
    ensures var h := Header(mark, n);
      LineLength(h + t) == |h| && ParseInt((h + t)[1..|h|]) == n
  {
    var h := Header(mark, n);
    HeaderShape(mark, n);
    assert forall i :: 0 <= i < |h| ==> (h + t)[i] == h[i];
    LineEndAt(h + t, 0, |h| - 1);
    assert (h + t)[1..|h|] == Digits(n) + CRLF;
    ParseHeader(n, CRLF);
  }

  // A header that is cut is one line up to the cut, and holds some number.
  lemma CutHeader(mark: char, n: nat, m: nat)
    requires n <= LONG_MAX && mark != '\n' && 1 <= m < |Header(mark, n)|
    ensures var p := Header(mark, n)[..m];
      LineLength(p) == m && ParseInt(p[1..]) >= 0
  {
    var h := Header(mark, n);
    HeaderShape(mark, n);
    var p := h[..m];
    assert forall i :: 0 <= i < m ==> p[i] == h[i];
    NoLineEnd(p, 0);
    if m > 1 {
      assert p[1..][0] == Digits(n)[0];
    }
  }

  // One argument, and what follows it, after a header that says its length.
  lemma ReadArgStep(r: Bytes, k: nat, a: Bytes, t: Bytes, n: nat)
    requires r != "" && r[0] == '$' && LineLength(r) == k && ParseInt(r[1..k]) == |a| && n >= 1
    requires |r| - k >= |a| + 2 && r[k..k + |a|] == a && r[k + |a| + 2..] == t
    ensures Same(ReadArgs(r, n),
      match ReadArgs(t, n - 1)
      case Args(args, rest) => Args([a] + args, rest)
      case other => other)
  {
  }

  lemma ReadOneArg(a: Bytes, t: Bytes, n: nat)
    requires |a| <= LONG_MAX && n >= 1
    ensures Same(ReadArgs(EncodeArg(a) + t, n),
      match ReadArgs(t, n - 1)
      case Args(args, rest) => Args([a] + args, rest)
      case other => other)
  {
    var h := Header('$', |a|);
    var more := a + CRLF + t;
    ArgParts(h, a, t);
    ReadHeader('$', |a|, more);
    assert EncodeArg(a) + t == h + more;
    ReadArgStep(h + more, |h|, a, t, n);
  }

  lemma ArgParts(h: Bytes, a: Bytes, t: Bytes)
    ensures var r := h + (a + CRLF + t);
      && h + a + CRLF + t == r && r[|h|..|h| + |a|] == a && r[|h| + |a| + 2..] == t
      && |r| - |h| >= |a| + 2 && (h != "" ==> r[0] == h[0])
  {
  }

  lemma CutOneArg(a: Bytes, m: nat, n: nat)
    requires |a| <= LONG_MAX && n >= 1 && m < |EncodeArg(a)|
    ensures ReadArgs(EncodeArg(a)[..m], n) == Short
  {
    var h := Header('$', |a|);
    var p := EncodeArg(a)[..m];
    HeaderShape('$', |a|);
    if 0 < m < |h| {
      assert p == h[..m];
      CutHeader('$', |a|, m);
      assert p[1..m] == p[1..];
    } else if m >= |h| {
      var more := (a + CRLF)[..m - |h|];
      assert p == h + more;
      ReadHeader('$', |a|, more);
    }
  }

  lemma {:induction false} ReadArgsBack(args: seq<Bytes>, t: Bytes)
    requires forall i :: 0 <= i < |args| ==> |args[i]| <= LONG_MAX
    ensures ReadArgs(EncodeArgs(args) + t, |args|) == Args(args, t)
    decreases |args|
  {
    if args == [] {
      assert EncodeArgs(args) + t == t;
    } else {
      assert EncodeArgs(args) + t == EncodeArg(args[0]) + (EncodeArgs(args[1..]) + t);
      ReadOneArg(args[0], EncodeArgs(args[1..]) + t, |args|);
      ReadArgsBack(args[1..], t);
      assert [args[0]] + args[1..] == args;
    }
  }

  /** A whole command is read back, whatever follows it. */
  lemma ReadCommandBack(cmd: Cmd, t: Bytes)
    requires Writable(cmd)
    ensures ReadCommand(EncodeCmd(cmd) + t) == Command(cmd, t)
  {
    var h := Header('*', |cmd|);
    var r := EncodeCmd(cmd) + t;
    var more := EncodeArgs(cmd) + t;
    assert r == h + more;
    HeaderShape('*', |cmd|);
    ReadHeader('*', |cmd|, more);
    assert r[|h|..] == more;
    ReadArgsBack(cmd, t);
  }

  // ----- reading what was cut

  lemma {:induction false} ReadArgsCut(args: seq<Bytes>, m: nat)
    requires forall i :: 0 <= i < |args| ==> |args[i]| <= LONG_MAX
    requires m < |EncodeArgs(args)|
    ensures ReadArgs(EncodeArgs(args)[..m], |args|) == Short
    decreases |args|
  {
    var first, more := EncodeArg(args[0]), EncodeArgs(args[1..]);
    assert EncodeArgs(args) == first + more;
    if m < |first| {
      assert EncodeArgs(args)[..m] == first[..m];
      CutOneArg(args[0], m, |args|);
    } else {
      assert EncodeArgs(args)[..m] == first + more[..m - |first|];
      ReadOneArg(args[0], more[..m - |first|], |args|);
      ReadArgsCut(args[1..], m - |first|);
    }
  }

  lemma {:induction false} ParseNatGrows(s: Bytes, acc: nat)
    ensures ParseNat(s, acc) >= acc
    decreases |s|
  {
    if s != "" && IsDigit(s[0]) {
      ParseNatGrows(s[1..], 10 * acc + (s[0] - '0') as nat);
    }
  }

  lemma {:induction false} FirstDigit(n: nat)
    requires n >= 1
    ensures Digits(n)[0] != '0'
  {
    if n >= 10 {
      FirstDigit(n / 10);
    }
  }

  // A count is written without leading zeros, so a cut one is still positive.
  lemma CutCount(n: nat, m: nat)
    requires 1 <= n <= LONG_MAX && 2 <= m < |Header('*', n)|
    ensures ParseInt(Header('*', n)[..m][1..]) >= 1
  {
    var p := Header('*', n)[..m][1..];
    FirstDigit(n);
    assert p[0] == Digits(n)[0];
    ParseNatGrows(p[1..], (p[0] - '0') as nat);
  }

  /** A command that is cut anywhere inside is recognised as cut. */
  lemma ReadCommandCut(cmd: Cmd, m: nat)
    requires Writable(cmd) && 0 < m < |EncodeCmd(cmd)|
    ensures ReadCommand(EncodeCmd(cmd)[..m]) == CutOff
  {
    var h := Header('*', |cmd|);
    var p := EncodeCmd(cmd)[..m];
    HeaderShape('*', |cmd|);
    if m < |h| {
      assert p == h[..m];
      CutHeader('*', |cmd|, m);
      if m > 1 {
        CutCount(|cmd|, m);
        assert p[1..m] == p[1..] && p[m..] == "";
      }
    } else {
      var more := EncodeArgs(cmd)[..m - |h|];
      assert p == h + more;
      ReadHeader('*', |cmd|, more);
      assert p[|h|..] == more;
      ReadArgsCut(cmd, m - |h|);
    }
  }
}
