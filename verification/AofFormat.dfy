/** The append-only file as text: how aof.c writes commands and reads numbers, lines and commands
    back. A byte is a char. */
module AofFormat {
  import opened Equality

  type Bytes = string
  type Cmd = seq<Bytes>

  // fgets(buf, AOF_ANNOTATION_LINE_MAX_LEN, fp) stores one byte less than the buffer holds.
  const LINE_MAX := 1023

  // ----- numbers

  function DigitChar(d: nat): char
    requires d < 10
  {
    '0' + d as char
  }

  predicate IsDigit(c: char) {
    '0' <= c <= '9'
  }

  // ll2string
  function Digits(n: nat): (s: Bytes)
    ensures s != "" && forall i :: 0 <= i < |s| ==> IsDigit(s[i])
  {
    if n < 10 then [DigitChar(n)] else Digits(n / 10) + [DigitChar(n % 10)]
  }

  function ParseNat(s: Bytes, acc: nat): nat {
    if s == "" || !IsDigit(s[0]) then acc else ParseNat(s[1..], 10 * acc + (s[0] - '0') as nat)
  }

  predicate IsSpace(c: char) {
    c == ' ' || '\t' <= c <= '\r'
  }

  // atoi and strtol in base ten, without their limits.
  function ParseInt(s: Bytes): int {
    if s != "" && IsSpace(s[0]) then ParseInt(s[1..])
    else if s != "" && s[0] == '-' then 0 - ParseNat(s[1..], 0) as int
    else if s != "" && s[0] == '+' then ParseNat(s[1..], 0)
    else ParseNat(s, 0)
  }

  lemma {:induction false} ParseNatAppend(a: Bytes, b: Bytes, acc: nat)
    requires forall i :: 0 <= i < |a| ==> IsDigit(a[i])
    ensures ParseNat(a + b, acc) == ParseNat(b, ParseNat(a, acc))
    decreases |a|
  {
    if a == "" {
      assert a + b == b;
    } else {
      assert (a + b)[1..] == a[1..] + b;
      ParseNatAppend(a[1..], b, 10 * acc + (a[0] - '0') as nat);
    }
  }

  lemma {:induction false} ParseDigits(n: nat)
    ensures ParseNat(Digits(n), 0) == n
  {
    if n < 10 {
      assert Digits(n)[1..] == "";
    } else {
      var last := [DigitChar(n % 10)];
      ParseDigits(n / 10);
      ParseNatAppend(Digits(n / 10), last, 0);
      assert last[1..] == "";
      assert ParseNat(last, n / 10) == 10 * (n / 10) + n % 10;
    }
  }

  // A number is read back whatever follows its digits, a digit excepted.
  lemma ParseHeader(n: nat, tail: Bytes)
    requires tail == "" || !IsDigit(tail[0])
    ensures ParseInt(Digits(n) + tail) == n
  {
    ParseDigits(n);
    ParseNatAppend(Digits(n), tail, 0);
    assert (Digits(n) + tail)[0] == Digits(n)[0];
  }

  function Pow10(k: nat): nat {
    if k == 0 then 1 else 10 * Pow10(k - 1)
  }

  lemma {:induction false} DigitsShort(n: nat, k: nat)
    requires n < Pow10(k) && k >= 1
    ensures |Digits(n)| <= k
  {
    if n >= 10 {
      DigitsShort(n / 10, k - 1);
    }
  }

  // ----- writing

  const CRLF: Bytes := "\r\n"

  function Header(mark: char, n: nat): Bytes {
    [mark] + Digits(n) + CRLF
  }

  function EncodeArg(arg: Bytes): Bytes {
    Header('$', |arg|) + arg + CRLF
  }

  function EncodeArgs(args: seq<Bytes>): Bytes {
    if args == [] then "" else EncodeArg(args[0]) + EncodeArgs(args[1..])
  }

  /** catAppendOnlyGenericCommand. */
  function EncodeCmd(cmd: Cmd): Bytes {
    Header('*', |cmd|) + EncodeArgs(cmd)
  }

  function Encode(cmds: seq<Cmd>): Bytes {
    if cmds == [] then "" else EncodeCmd(cmds[0]) + Encode(cmds[1..])
  }

  lemma Regrouped(r: Bytes, a: Bytes, b: Bytes, c: Bytes, rest: Bytes)
    ensures Same(r + ((a + b + c) + rest), r + a + b + c + rest)
  {
    assert r + ((a + b + c) + rest) == r + a + b + c + rest;
  }

  // One more argument is written.
  lemma ArgWritten(r: Bytes, args: seq<Bytes>, arg: Bytes, rest: seq<Bytes>, whole: Bytes)
    requires args != [] && arg == args[0] && rest == args[1..] && Same(r + EncodeArgs(args), whole)
    ensures Same(r + Header('$', |arg|) + arg + CRLF + EncodeArgs(rest), whole)
  {
    Regrouped(r, Header('$', |arg|), arg, CRLF, EncodeArgs(rest));
  }

  method CatAppendOnlyGenericCommand(dst: Bytes, argv: Cmd) returns (r: Bytes)
    ensures r == dst + EncodeCmd(argv)
  {
    r := dst + Header('*', |argv|);
    var j := 0;
    ghost var whole := dst + EncodeCmd(argv);
    assert argv[0..] == argv;
    assert r + EncodeArgs(argv) == whole;
    while j < |argv|
      invariant 0 <= j <= |argv|
      invariant Same(r + EncodeArgs(argv[j..]), whole)
    {
      assert argv[j..][0] == argv[j] && argv[j..][1..] == argv[j + 1..];
      ArgWritten(r, argv[j..], argv[j], argv[j + 1..], whole);
      r := r + Header('$', |argv[j]|);
      r := r + argv[j];
      r := r + CRLF;
      j := j + 1;
    }
    assert argv[j..] == [];
    assert r + "" == r;
  }

  // ----- reading lines

  // Where the first line of r ends, its newline included.
  function LineEnd(r: Bytes, i: nat := 0): (n: nat)
    requires i <= |r|
    ensures i <= n <= |r|
    decreases |r| - i
  {
    if i == |r| then i else if r[i] == '\n' then i + 1 else LineEnd(r, i + 1)
  }

  // How much fgets takes.
  function LineLength(r: Bytes): (n: nat)
    ensures n <= |r| && (r != "" ==> n > 0)
  {
    var n := LineEnd(r);
    if n > LINE_MAX then LINE_MAX else n
  }

  lemma {:induction false} LineEndAt(r: Bytes, i: nat, n: nat)
    requires i <= n < |r| && r[n] == '\n' && forall j :: i <= j < n ==> r[j] != '\n'
    ensures LineEnd(r, i) == n + 1
    decreases n - i
  {
    if i < n {
      LineEndAt(r, i + 1, n);
    }
  }

  lemma {:induction false} NoLineEnd(r: Bytes, i: nat)
    requires i <= |r| && forall j :: i <= j < |r| ==> r[j] != '\n'
    ensures LineEnd(r, i) == |r|
    decreases |r| - i
  {
    if i < |r| {
      NoLineEnd(r, i + 1);
    }
  }
}
