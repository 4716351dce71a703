/** A log that the loader had to cut: when the rest loads cleanly again, and what becomes of commands
    appended to it. */
module AofTruncate {
  import opened Equality
  import opened AofFormat
  import opened AofParse
  import opened AofLoad
  import opened AofRecovery

  lemma {:induction false} EncodeAppend(a: seq<Cmd>, b: seq<Cmd>)
    ensures Encode(a + b) == Encode(a) + Encode(b)
    decreases |a|
  {
    if a == [] {
      assert a + b == b;
    } else {
      assert (a + b)[1..] == a[1..] + b;
      EncodeAppend(a[1..], b);
    }
  }

  lemma {:induction false} RunAppend(lookup: Lookup, st: Progress, a: seq<Cmd>, b: seq<Cmd>, offset: nat)
    ensures Same(RunAll(lookup, true, Size, st, a + b, offset),
                 RunAll(lookup, true, Size, RunAll(lookup, true, Size, st, a, offset), b, offset + |Encode(a)|))
    decreases |a|
  {
    if a == [] {
      assert a + b == b;
    } else {
      assert (a + b)[1..] == a[1..] + b && (a + b)[0] == a[0];
      var next := offset + Size(a[0]);
      RunAppend(lookup, Execute(lookup, true, st, a[0], next), a[1..], b, next);
    }
  }

  function Run(lookup: Lookup, cmds: seq<Cmd>): Progress {
    RunAll(lookup, true, Size, START, cmds, 0)
  }

  // Running one more command.
  lemma RunOneMore(lookup: Lookup, cmds: seq<Cmd>, c: Cmd)
    ensures Run(lookup, cmds + [c]) == Execute(lookup, true, Run(lookup, cmds), c, |Encode(cmds + [c])|)
  {
    RunAppend(lookup, START, cmds, [c], 0);
    EncodeAppend(cmds, [c]);
    assert [c][1..] == [];
    assert Encode([c]) == EncodeCmd(c) + Encode([]) == EncodeCmd(c);
    var st, at := Run(lookup, cmds), |Encode(cmds)|;
    var end := at + Size(c);
    assert RunAll(lookup, true, Size, st, [c], at)
        == RunAll(lookup, true, Size, Execute(lookup, true, st, c, end), [], end);
  }

  /** Where the last MULTI stands, or -1. */
  function LastMulti(lookup: Lookup, cmds: seq<Cmd>): (k: int)
    ensures -1 <= k < |cmds| && (k >= 0 ==> lookup(cmds[k]) == Multi)
    decreases |cmds|
  {
    if cmds == [] then -1
    else if lookup(cmds[|cmds| - 1]) == Multi then |cmds| - 1
    else LastMulti(lookup, cmds[..|cmds| - 1])
  }

  // The two offsets the loader keeps.
  lemma {:induction false} OffsetsOf(lookup: Lookup, cmds: seq<Cmd>)
    ensures Run(lookup, cmds).validUpTo == |Encode(cmds)|
    ensures LastMulti(lookup, cmds) >= 0 ==>
      Run(lookup, cmds).beforeMulti == |Encode(cmds[..LastMulti(lookup, cmds)])|
    decreases |cmds|
  {
    if cmds != [] {
      var init, last := cmds[..|cmds| - 1], cmds[|cmds| - 1];
      assert cmds == init + [last];
      OffsetsOf(lookup, init);
      RunOneMore(lookup, init, last);
      var k := LastMulti(lookup, cmds);
      assert lookup(last) != Multi && k >= 0 ==> init[..k] == cmds[..k];
    }
  }

  // With the transaction that the last MULTI opened still open, nothing after it was executed.
  lemma {:induction false} OpenSinceLastMulti(lookup: Lookup, cmds: seq<Cmd>)
    requires Run(lookup, cmds).inMulti
    ensures var k := LastMulti(lookup, cmds);
      k >= 0 && Run(lookup, cmds[..k]).executed == Run(lookup, cmds).executed
    decreases |cmds|
  {
    if cmds != [] {
      var init, last := cmds[..|cmds| - 1], cmds[|cmds| - 1];
      assert cmds == init + [last];
      RunOneMore(lookup, init, last);
      if lookup(last) != Multi {
        OpenSinceLastMulti(lookup, init);
        var k := LastMulti(lookup, cmds);
        assert init[..k] == cmds[..k];
      }
    }
  }

  lemma RunIsMeaning(lookup: Lookup, cmds: seq<Cmd>)
    ensures Run(lookup, cmds).executed == Meaning(lookup, cmds)
    ensures Run(lookup, cmds).inMulti <==> Open(lookup, cmds)
  {
    RunMeaning(lookup, true, Size, START, cmds, 0);
    assert [] + Meaning(lookup, cmds) == Meaning(lookup, cmds);
  }

  // ----- what the loader leaves

  /** A file after it was loaded with aof-load-truncated: possibly cut. */
  function AfterLoad(lookup: Lookup, file: Bytes): Bytes {
    match Load(lookup, true, file, 0, START).0
    case Truncated(at) => if at <= |file| then file[..at] else file
    case _ => file
  }

  /** How many commands stay in the file when the loader cuts the first m bytes of a log: a cut inside
      a command drops that command, a cut between commands drops the open transaction. */
  function Kept(lookup: Lookup, cmds: seq<Cmd>, m: nat): (k: nat)
    ensures k <= |cmds|
  {
    var n := Whole(cmds, m);
    if m > |Encode(cmds[..n])| then n
    else if LastMulti(lookup, cmds[..n]) >= 0 then LastMulti(lookup, cmds[..n])
    else n
  }

  lemma {:induction false} WholeFits(cmds: seq<Cmd>, m: nat)
    ensures |Encode(cmds[..Whole(cmds, m)])| <= m
    decreases |cmds|
  {
    var n := Whole(cmds, m);
    if n > 0 {
      WholeFits(cmds[1..], m - Size(cmds[0]));
      assert cmds[..n][1..] == cmds[1..][..n - 1];
    } else {
      assert cmds[..0] == [];
    }
  }

  lemma EncodePrefix(cmds: seq<Cmd>, k: nat, m: nat)
    requires k <= |cmds| && |Encode(cmds[..k])| <= m <= |Encode(cmds)|
    ensures Encode(cmds)[..m][..|Encode(cmds[..k])|] == Encode(cmds[..k])
  {
    assert cmds == cmds[..k] + cmds[k..];
    EncodeAppend(cmds[..k], cmds[k..]);
  }

  lemma KeptIsPrefix(lookup: Lookup, cmds: seq<Cmd>, m: nat)
    requires m <= |Encode(cmds)|
    ensures var k := Kept(lookup, cmds, m);
      && |Encode(cmds[..k])| <= m
      && Encode(cmds)[..m][..|Encode(cmds[..k])|] == Encode(cmds[..k])
  {
    var n, k := Whole(cmds, m), Kept(lookup, cmds, m);
    WholeFits(cmds, m);
    assert cmds[..n] == cmds[..k] + cmds[k..n];
    EncodeAppend(cmds[..k], cmds[k..n]);
    EncodePrefix(cmds, k, m);
  }

  lemma CutAt(lookup: Lookup, cmds: seq<Cmd>, m: nat)
    requires Log(lookup, cmds) && m <= |Encode(cmds)|
    requires Load(lookup, true, Encode(cmds)[..m], 0, START).0.Truncated?
    ensures AfterLoad(lookup, Encode(cmds)[..m]) == Encode(cmds[..Kept(lookup, cmds, m)])
    ensures Load(lookup, true, Encode(cmds)[..m], 0, START).1.executed == Meaning(lookup, cmds[..Kept(lookup, cmds, m)])
  {
    var n, k := Whole(cmds, m), Kept(lookup, cmds, m);
    LoadPrefix(lookup, true, cmds, m, 0, START);
    OffsetsOf(lookup, cmds[..n]);
    KeptIsPrefix(lookup, cmds, m);
    if m <= |Encode(cmds[..n])| {
      OpenSinceLastMulti(lookup, cmds[..n]);
      assert cmds[..n][..k] == cmds[..k];
    }
    RunIsMeaning(lookup, cmds[..k]);
  }

  /** The file as the loader leaves it executes the same commands again. It loads without being cut
      once more exactly when the commands left in it end outside a transaction. */
  lemma ReloadExact(lookup: Lookup, cmds: seq<Cmd>, m: nat)
    requires Log(lookup, cmds) && m <= |Encode(cmds)|
    requires Load(lookup, true, Encode(cmds)[..m], 0, START).0.Truncated?
    ensures var file := Encode(cmds)[..m];
      var again := Load(lookup, true, AfterLoad(lookup, file), 0, START);
      && again.1.executed == Load(lookup, true, file, 0, START).1.executed
      && (again.0 == Loaded <==> !Open(lookup, cmds[..Kept(lookup, cmds, m)]))
  {
    CutAt(lookup, cmds, m);
    LoadInvertsEncode(lookup, true, cmds[..Kept(lookup, cmds, m)]);
  }

  /** No MULTI inside an open transaction, as the server writes its logs. */
  ghost predicate NotNested(lookup: Lookup, cmds: seq<Cmd>) {
    forall i :: 0 <= i < |cmds| && lookup(cmds[i]) == Multi ==> !Open(lookup, cmds[..i])
  }

  /** The log ends, after m bytes, inside a command of an open transaction. */
  predicate TornInside(lookup: Lookup, cmds: seq<Cmd>, m: nat) {
    var whole := cmds[..Whole(cmds, m)];
    m > |Encode(whole)| && Open(lookup, whole)
  }

  lemma KeptOpen(lookup: Lookup, cmds: seq<Cmd>, m: nat)
    requires NotNested(lookup, cmds)
    ensures Open(lookup, cmds[..Kept(lookup, cmds, m)]) <==> TornInside(lookup, cmds, m)
  {
    var whole := cmds[..Whole(cmds, m)];
    var k := LastMulti(lookup, whole);
    if m <= |Encode(whole)| {
      if k >= 0 {
        assert lookup(cmds[k]) == Multi;
      } else if Open(lookup, whole) {
        RunIsMeaning(lookup, whole);
        OpenSinceLastMulti(lookup, whole);
      }
    }
  }

  /** With no nested MULTI the cut file loads cleanly unless the log was torn inside a command of an open
      transaction: a tear between commands drops the whole transaction. */
  lemma ReloadsUnlessTorn(lookup: Lookup, cmds: seq<Cmd>, m: nat)
    requires Log(lookup, cmds) && m <= |Encode(cmds)| && NotNested(lookup, cmds)
    requires Load(lookup, true, Encode(cmds)[..m], 0, START).0.Truncated?
    ensures Load(lookup, true, AfterLoad(lookup, Encode(cmds)[..m]), 0, START).0 == Loaded
       <==> !TornInside(lookup, cmds, m)
  {
    ReloadExact(lookup, cmds, m);
    KeptOpen(lookup, cmds, m);
  }

  // ----- going on with a log that was cut

  lemma MeaningAppend(lookup: Lookup, a: seq<Cmd>, b: seq<Cmd>)
    requires !Open(lookup, a)
    ensures Meaning(lookup, a + b) == Meaning(lookup, a) + Meaning(lookup, b)
  {
    RunIsMeaning(lookup, a);
    RunIsMeaning(lookup, a + b);
    RunAppend(lookup, START, a, b, 0);
    RunMeaning(lookup, true, Size, Run(lookup, a), b, |Encode(a)|);
  }

  lemma OpenAppend(lookup: Lookup, a: seq<Cmd>, b: seq<Cmd>)
    requires !Open(lookup, a)
    ensures Open(lookup, a + b) <==> Open(lookup, b)
  {
    RunIsMeaning(lookup, a);
    RunIsMeaning(lookup, a + b);
    RunAppend(lookup, START, a, b, 0);
    RunMeaning(lookup, true, Size, Run(lookup, a), b, |Encode(a)|);
  }

  lemma NotNestedAppend(lookup: Lookup, a: seq<Cmd>, b: seq<Cmd>)
    requires NotNested(lookup, a) && !Open(lookup, a) && NotNested(lookup, b)
    ensures NotNested(lookup, a + b)
  {
    forall i | 0 <= i < |a + b| && lookup((a + b)[i]) == Multi
      ensures !Open(lookup, (a + b)[..i])
    {
      if i < |a| {
        assert (a + b)[..i] == a[..i];
      } else {
        assert (a + b)[..i] == a + b[..i - |a|];
        OpenAppend(lookup, a, b[..i - |a|]);
      }
    }
  }

  lemma NotNestedPrefix(lookup: Lookup, cmds: seq<Cmd>, k: nat)
    requires NotNested(lookup, cmds) && k <= |cmds|
    ensures NotNested(lookup, cmds[..k])
  {
    forall i | 0 <= i < k && lookup(cmds[..k][i]) == Multi
      ensures !Open(lookup, cmds[..k][..i])
    {
      assert cmds[..k][..i] == cmds[..i];
    }
  }

  lemma {:induction false} Swallowed(lookup: Lookup, a: seq<Cmd>, b: seq<Cmd>)
    requires Open(lookup, a) && forall i :: 0 <= i < |b| ==> lookup(b[i]) != Exec
    ensures Meaning(lookup, a + b) == Meaning(lookup, a) && Open(lookup, a + b)
    decreases |b|
  {
    if b == [] {
      assert a + b == a;
    } else {
      var init, last := b[..|b| - 1], b[|b| - 1];
      assert a + b == (a + init) + [last];
      Swallowed(lookup, a, init);
      RunOneMore(lookup, a + init, last);
      RunIsMeaning(lookup, a + init);
      RunIsMeaning(lookup, a + b);
    }
  }

  /** When the commands left in a cut file end outside a transaction, commands appended to it later take
      effect after them. */
  lemma AppendedAfterCut(lookup: Lookup, cmds: seq<Cmd>, m: nat, more: seq<Cmd>)
    requires Log(lookup, cmds) && Log(lookup, more) && m <= |Encode(cmds)|
    requires Load(lookup, true, Encode(cmds)[..m], 0, START).0.Truncated?
    requires !Open(lookup, cmds[..Kept(lookup, cmds, m)])
    ensures var file := Encode(cmds)[..m];
      Load(lookup, true, AfterLoad(lookup, file) + Encode(more), 0, START).1.executed
      == Load(lookup, true, file, 0, START).1.executed + Meaning(lookup, more)
  {
    var kept := cmds[..Kept(lookup, cmds, m)];
    CutAt(lookup, cmds, m);
    EncodeAppend(kept, more);
    LoadInvertsEncode(lookup, true, kept + more);
    MeaningAppend(lookup, kept, more);
  }

  /** When they do not, because the cut fell inside a command of an open transaction, everything
      appended up to the next EXEC is lost at the next load. */
  lemma LostAfterCut(lookup: Lookup, cmds: seq<Cmd>, m: nat, more: seq<Cmd>)
    requires Log(lookup, cmds) && Log(lookup, more) && m <= |Encode(cmds)|
    requires Load(lookup, true, Encode(cmds)[..m], 0, START).0.Truncated?
    requires Open(lookup, cmds[..Kept(lookup, cmds, m)]) && forall i :: 0 <= i < |more| ==> lookup(more[i]) != Exec
    ensures var file := Encode(cmds)[..m];
      Load(lookup, true, AfterLoad(lookup, file) + Encode(more), 0, START).1.executed
      == Load(lookup, true, file, 0, START).1.executed
  {
    var kept := cmds[..Kept(lookup, cmds, m)];
    CutAt(lookup, cmds, m);
    EncodeAppend(kept, more);
    LoadInvertsEncode(lookup, true, kept + more);
    Swallowed(lookup, kept, more);
  }

  // A command table with MULTI and EXEC, and every other command plain.
  function SmallTable(cmd: Cmd): Kind {
    if cmd == ["MULTI"] then Multi else if cmd == ["EXEC"] then Exec else Plain
  }

  /** A cut that leaves an open transaction behind: MULTI, then a command of which one byte survived. */
  lemma BadCut(second: Cmd) returns (cmds: seq<Cmd>, m: nat)
    requires Writable(second) && SmallTable(second) == Plain
    ensures Log(SmallTable, cmds) && m <= |Encode(cmds)|
    ensures Load(SmallTable, true, Encode(cmds)[..m], 0, START).0.Truncated?
    ensures Open(SmallTable, cmds[..Kept(SmallTable, cmds, m)])
  {
    var first: Cmd := ["MULTI"];
    cmds := [first, second];
    m := Size(first) + 1;
    assert cmds[1..] == [second] && [second][1..] == [];
    assert Encode([second]) == EncodeCmd(second) + Encode([]);
    assert Encode(cmds) == EncodeCmd(first) + Encode([second]);
    HeaderShape('*', |second|);
    assert Size(second) > 1;
    assert Whole([second], 1) == 0;
    assert Whole(cmds, m) == 1 && cmds[..1] == [first] && [first][1..] == [];
    assert Encode([first]) == EncodeCmd(first) + "";
    assert NextExec(SmallTable, [first]) == 1;
    LoadPrefix(SmallTable, true, cmds, m, 0, START);
  }
}
