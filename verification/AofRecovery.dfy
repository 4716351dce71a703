/** What survives of a log: loading any prefix of it, and what is left after the loader cut it. */
module AofRecovery {
  import opened Equality
  import opened AofFormat
  import opened AofParse
  import opened AofLoad

  // Commands that the server writes: known, and of sizes that a file can hold.
  ghost predicate Log(lookup: Lookup, cmds: seq<Cmd>) {
    forall i :: 0 <= i < |cmds| ==> Writable(cmds[i]) && lookup(cmds[i]) != Unknown
  }

  // ----- which commands take effect

  /** The first EXEC at or after i, or |cmds|. */
  function NextExec(lookup: Lookup, cmds: seq<Cmd>, i: nat := 0): (k: nat)
    requires i <= |cmds|
    ensures i <= k <= |cmds|
    ensures k < |cmds| ==> lookup(cmds[k]) == Exec
    ensures forall j :: i <= j < k ==> lookup(cmds[j]) != Exec
    decreases |cmds| - i
  {
    if i == |cmds| || lookup(cmds[i]) == Exec then i else NextExec(lookup, cmds, i + 1)
  }

  /** What a log means: plain commands, and the transactions that are closed. */
  function Meaning(lookup: Lookup, cmds: seq<Cmd>): seq<Cmd>
    decreases |cmds|
  {
    if cmds == [] then []
    else
      match lookup(cmds[0])
      case Multi =>
        var k := NextExec(lookup, cmds);
        if k == |cmds| then [] else cmds[1..k] + Meaning(lookup, cmds[k + 1..])
      case Exec => Meaning(lookup, cmds[1..])
      case _ => [cmds[0]] + Meaning(lookup, cmds[1..])
  }

  /** The log ends inside a transaction. */
  predicate Open(lookup: Lookup, cmds: seq<Cmd>)
    decreases |cmds|
  {
    cmds != [] &&
      match lookup(cmds[0])
      case Multi =>
        var k := NextExec(lookup, cmds);
        k == |cmds| || Open(lookup, cmds[k + 1..])
      case _ => Open(lookup, cmds[1..])
  }

  // ----- the state after whole commands

  /** The loader's state after commands whose encodings have these sizes. */
  function RunAll(lookup: Lookup, tolerant: bool, size: Cmd -> nat, st: Progress, cmds: seq<Cmd>, offset: nat): Progress
    decreases |cmds|
  {
    if cmds == [] then st
    else
      var next := offset + size(cmds[0]);
      RunAll(lookup, tolerant, size, Execute(lookup, tolerant, st, cmds[0], next), cmds[1..], next)
  }

  // Inside a transaction, commands pile up until its EXEC.
  lemma {:induction false} RunQueued(
      lookup: Lookup, tolerant: bool, size: Cmd -> nat, st: Progress, cmds: seq<Cmd>, offset: nat, k: nat)
      returns (st': Progress, next': nat)
    requires st.inMulti && k <= |cmds| && forall j :: 0 <= j < k ==> lookup(cmds[j]) != Exec
    ensures RunAll(lookup, tolerant, size, st, cmds, offset) == RunAll(lookup, tolerant, size, st', cmds[k..], next')
    ensures st'.inMulti && st'.executed == st.executed && st'.queued == st.queued + cmds[..k]
    decreases k
  {
    if k == 0 {
      assert cmds[0..] == cmds && st.queued + cmds[..0] == st.queued;
      return st, offset;
    } else {
      var next := offset + size(cmds[0]);
      var st1 := Execute(lookup, tolerant, st, cmds[0], next);
      st', next' := RunQueued(lookup, tolerant, size, st1, cmds[1..], next, k - 1);
      assert cmds[1..][k - 1..] == cmds[k..];
      assert st1.queued + cmds[1..][..k - 1] == st.queued + cmds[..k];
    }
  }

  /** Running commands one by one has the effect their log means. */
  lemma {:induction false} RunMeaning(
      lookup: Lookup, tolerant: bool, size: Cmd -> nat, st: Progress, cmds: seq<Cmd>, offset: nat)
    requires !st.inMulti
    ensures Same(RunAll(lookup, tolerant, size, st, cmds, offset).executed, st.executed + Meaning(lookup, cmds))
    ensures RunAll(lookup, tolerant, size, st, cmds, offset).inMulti <==> Open(lookup, cmds)
    decreases |cmds|
  {
    if cmds == [] {
      assert st.executed + [] == st.executed;
    } else if lookup(cmds[0]) == Multi {
      TransactionMeaning(lookup, tolerant, size, st, cmds, offset);
    } else {
      var st1, next := RunOne(lookup, tolerant, size, st, cmds, offset);
      RunMeaning(lookup, tolerant, size, st1, cmds[1..], next);
      OneMeans(lookup, cmds, st.executed, st1.executed);
    }
  }

  // A command outside transactions, EXEC included.
  lemma RunOne(
      lookup: Lookup, tolerant: bool, size: Cmd -> nat, st: Progress, cmds: seq<Cmd>, offset: nat)
      returns (st1: Progress, next: nat)
    requires !st.inMulti && cmds != [] && lookup(cmds[0]) != Multi
    ensures Same(RunAll(lookup, tolerant, size, st, cmds, offset), RunAll(lookup, tolerant, size, st1, cmds[1..], next))
    ensures !st1.inMulti && st1.executed == st.executed + (if lookup(cmds[0]) == Exec then [] else [cmds[0]])
  {
    next := offset + size(cmds[0]);
    st1 := Execute(lookup, tolerant, st, cmds[0], next);
  }

  lemma OneMeans(lookup: Lookup, cmds: seq<Cmd>, before: seq<Cmd>, after: seq<Cmd>)
    requires cmds != [] && lookup(cmds[0]) != Multi
    requires after == before + (if lookup(cmds[0]) == Exec then [] else [cmds[0]])
    ensures Same(after + Meaning(lookup, cmds[1..]), before + Meaning(lookup, cmds))
    ensures Open(lookup, cmds) <==> Open(lookup, cmds[1..])
  {
    var one := if lookup(cmds[0]) == Exec then [] else [cmds[0]];
    Regroup(before, one, Meaning(lookup, cmds[1..]));
    assert one + Meaning(lookup, cmds[1..]) == Meaning(lookup, cmds);
  }

  lemma Regroup(a: seq<Cmd>, b: seq<Cmd>, c: seq<Cmd>)
    ensures (a + b) + c == a + (b + c)
  {
  }

  lemma {:induction false} TransactionMeaning(
      lookup: Lookup, tolerant: bool, size: Cmd -> nat, st: Progress, cmds: seq<Cmd>, offset: nat)
    requires !st.inMulti && cmds != [] && lookup(cmds[0]) == Multi
    ensures Same(RunAll(lookup, tolerant, size, st, cmds, offset).executed, st.executed + Meaning(lookup, cmds))
    ensures RunAll(lookup, tolerant, size, st, cmds, offset).inMulti <==> Open(lookup, cmds)
    decreases |cmds|, 0
  {
    var k := NextExec(lookup, cmds);
    var st2, next2 := RunToExec(lookup, tolerant, size, st, cmds, offset, k);
    if k < |cmds| {
      var st3, next3 := RunExec(lookup, tolerant, size, st2, cmds[k..], next2);
      assert cmds[k..][1..] == cmds[k + 1..];
      RunMeaning(lookup, tolerant, size, st3, cmds[k + 1..], next3);
      ClosedMeans(lookup, cmds, k, st.executed, st3.executed);
    } else {
      assert cmds[k..] == [] && st.executed + [] == st.executed;
    }
  }

  // From MULTI up to its EXEC.
  lemma RunToExec(lookup: Lookup, tolerant: bool, size: Cmd -> nat, st: Progress, cmds: seq<Cmd>, offset: nat, k: nat)
      returns (st2: Progress, next2: nat)
    requires !st.inMulti && cmds != [] && lookup(cmds[0]) == Multi && k == NextExec(lookup, cmds)
    ensures 1 <= k <= |cmds|
    ensures Same(RunAll(lookup, tolerant, size, st, cmds, offset),
                 RunAll(lookup, tolerant, size, st2, cmds[k..], next2))
    ensures st2.inMulti && st2.executed == st.executed && st2.queued == cmds[1..k]
  {
    var next := offset + size(cmds[0]);
    var st1 := Execute(lookup, tolerant, st, cmds[0], next);
    st2, next2 := RunQueued(lookup, tolerant, size, st1, cmds[1..], next, k - 1);
    assert cmds[1..][k - 1..] == cmds[k..] && [] + cmds[1..][..k - 1] == cmds[1..k];
  }

  lemma RunExec(
      lookup: Lookup, tolerant: bool, size: Cmd -> nat, st: Progress, cmds: seq<Cmd>, offset: nat)
      returns (st': Progress, next: nat)
    requires st.inMulti && cmds != [] && lookup(cmds[0]) == Exec
    ensures Same(RunAll(lookup, tolerant, size, st, cmds, offset), RunAll(lookup, tolerant, size, st', cmds[1..], next))
    ensures !st'.inMulti && st'.executed == st.executed + st.queued
  {
    next := offset + size(cmds[0]);
    st' := Execute(lookup, tolerant, st, cmds[0], next);
  }

  lemma ClosedMeans(lookup: Lookup, cmds: seq<Cmd>, k: nat, before: seq<Cmd>, after: seq<Cmd>)
    requires cmds != [] && lookup(cmds[0]) == Multi && k == NextExec(lookup, cmds) && 1 <= k < |cmds|
    requires after == before + cmds[1..k]
    ensures Same(after + Meaning(lookup, cmds[k + 1..]), before + Meaning(lookup, cmds))
    ensures Open(lookup, cmds) <==> Open(lookup, cmds[k + 1..])
  {
    TransactionFirst(lookup, cmds, k, cmds[k + 1..]);
    Regroup(before, cmds[1..k], Meaning(lookup, cmds[k + 1..]));
  }

  lemma TransactionFirst(lookup: Lookup, cmds: seq<Cmd>, k: nat, rest: seq<Cmd>)
    requires cmds != [] && lookup(cmds[0]) == Multi && k == NextExec(lookup, cmds) && 1 <= k < |cmds|
    requires rest == cmds[k + 1..]
    ensures Same(Meaning(lookup, cmds), cmds[1..k] + Meaning(lookup, rest))
    ensures Open(lookup, cmds) <==> Open(lookup, rest)
  {
  }

  // ----- loading a prefix

  function Size(cmd: Cmd): nat {
    |EncodeCmd(cmd)|
  }

  /** How many commands lie entirely within the first m bytes of the log. */
  function Whole(cmds: seq<Cmd>, m: nat): (n: nat)
    ensures n <= |cmds|
    decreases |cmds|
  {
    if cmds == [] || m < Size(cmds[0]) then 0 else 1 + Whole(cmds[1..], m - Size(cmds[0]))
  }

  /** What loading the first m bytes of a log comes to. */
  ghost function Expected(
      lookup: Lookup, tolerant: bool, cmds: seq<Cmd>, m: nat, offset: nat, st: Progress): (Outcome, Progress)
  {
    var n := Whole(cmds, m);
    var st' := RunAll(lookup, tolerant, Size, st, cmds[..n], offset);
    if m > |Encode(cmds[..n])| then (Unexpected(tolerant, st'.validUpTo), st')
    else if st'.inMulti then (Unexpected(tolerant, st'.beforeMulti), st')
    else (Loaded, st')
  }

  // One more whole command, then the rest.
  lemma ExpectedStep(lookup: Lookup, tolerant: bool, cmds: seq<Cmd>, m: nat, offset: nat, st: Progress)
    requires cmds != [] && m >= Size(cmds[0])
    ensures var next := offset + Size(cmds[0]);
      Expected(lookup, tolerant, cmds, m, offset, st)
      == Expected(lookup, tolerant, cmds[1..], m - Size(cmds[0]), next, Execute(lookup, tolerant, st, cmds[0], next))
  {
    var n := Whole(cmds[1..], m - Size(cmds[0]));
    assert cmds[..n + 1][1..] == cmds[1..][..n];
    assert Encode(cmds[..n + 1]) == EncodeCmd(cmds[0]) + Encode(cmds[1..][..n]);
  }

  /** A reader that returns what was written, and sees where it was cut. */
  ghost predicate Reads(read: Reader) {
    && Shrinks(read)
    && read("") == AtEnd
    && (forall cmd, t {:trigger read(EncodeCmd(cmd) + t)} ::
          Writable(cmd) ==> read(EncodeCmd(cmd) + t) == Command(cmd, t))
    && (forall cmd, m {:trigger read(EncodeCmd(cmd)[..m])} ::
          Writable(cmd) && 0 < m < |EncodeCmd(cmd)| ==> read(EncodeCmd(cmd)[..m]) == CutOff)
  }

  lemma ReadCommandReads()
    ensures Reads(ReadCommand)
  {
    ReadShrinks();
    forall cmd, t | Writable(cmd)
      ensures ReadCommand(EncodeCmd(cmd) + t) == Command(cmd, t)
    {
      ReadCommandBack(cmd, t);
    }
    forall cmd, m: nat | Writable(cmd) && 0 < m < |EncodeCmd(cmd)|
      ensures ReadCommand(EncodeCmd(cmd)[..m]) == CutOff
    {
      ReadCommandCut(cmd, m);
    }
  }

  // The first command is read whole, and leaves what follows it before the cut.
  lemma FirstRead(read: Reader, cmds: seq<Cmd>, m: nat)
    requires Reads(read) && cmds != [] && Writable(cmds[0]) && Size(cmds[0]) <= m <= |Encode(cmds)|
    ensures m - Size(cmds[0]) <= |Encode(cmds[1..])|
    ensures Same(read(Encode(cmds)[..m]), Command(cmds[0], Encode(cmds[1..])[..m - Size(cmds[0])]))
  {
    var first, more := EncodeCmd(cmds[0]), Encode(cmds[1..]);
    PrefixSplits(first, more, m);
    assert read(first + more[..m - |first|]) == Command(cmds[0], more[..m - |first|]);
  }

  lemma LoadFirst(
      read: Reader, lookup: Lookup, tolerant: bool, cmds: seq<Cmd>, m: nat, rest: Bytes, offset: nat, st: Progress)
    requires Shrinks(read) && cmds != [] && lookup(cmds[0]) != Unknown && Size(cmds[0]) <= m <= |Encode(cmds)|
    requires |rest| == m - Size(cmds[0]) && read(Encode(cmds)[..m]) == Command(cmds[0], rest)
    ensures var next := offset + Size(cmds[0]);
      Same(LoadWith(read, lookup, tolerant, Encode(cmds)[..m], offset, st),
           LoadWith(read, lookup, tolerant, rest, next, Execute(lookup, tolerant, st, cmds[0], next)))
  {
    LoadAfterRead(read, lookup, tolerant, Encode(cmds)[..m], rest, cmds[0], offset, st);
  }

  lemma PrefixSplits(a: Bytes, b: Bytes, m: nat)
    requires |a| <= m <= |a| + |b|
    ensures (a + b)[..m] == a + b[..m - |a|]
  {
  }

  lemma LoadAfterRead(
      read: Reader, lookup: Lookup, tolerant: bool, r: Bytes, rest: Bytes, cmd: Cmd, offset: nat, st: Progress)
    requires Shrinks(read) && read(r) == Command(cmd, rest) && lookup(cmd) != Unknown
    ensures |rest| < |r|
    ensures var next := offset + |r| - |rest|;
      Same(LoadWith(read, lookup, tolerant, r, offset, st),
           LoadWith(read, lookup, tolerant, rest, next, Execute(lookup, tolerant, st, cmd, next)))
  {
  }

  lemma CutFirst(read: Reader, lookup: Lookup, tolerant: bool, cmds: seq<Cmd>, m: nat, offset: nat, st: Progress)
    requires Reads(read) && Log(lookup, cmds) && (cmds != [] ==> m < Size(cmds[0])) && m <= |Encode(cmds)|
    ensures Same(LoadWith(read, lookup, tolerant, Encode(cmds)[..m], offset, st),
                 Expected(lookup, tolerant, cmds, m, offset, st))
  {
    assert cmds[..0] == [];
    if m == 0 {
      assert Encode(cmds)[..m] == "";
    } else {
      assert Encode(cmds)[..m] == EncodeCmd(cmds[0])[..m];
      assert read(EncodeCmd(cmds[0])[..m]) == CutOff;
    }
  }

  lemma {:induction false} LoadPrefixWith(
      read: Reader, lookup: Lookup, tolerant: bool, cmds: seq<Cmd>, m: nat, offset: nat, st: Progress)
    requires Reads(read) && Log(lookup, cmds) && m <= |Encode(cmds)|
    ensures Same(LoadWith(read, lookup, tolerant, Encode(cmds)[..m], offset, st),
                 Expected(lookup, tolerant, cmds, m, offset, st))
    decreases |cmds|
  {
    if cmds == [] || m < Size(cmds[0]) {
      CutFirst(read, lookup, tolerant, cmds, m, offset, st);
    } else {
      var next := offset + Size(cmds[0]);
      FirstRead(read, cmds, m);
      LoadFirst(read, lookup, tolerant, cmds, m, Encode(cmds[1..])[..m - Size(cmds[0])], offset, st);
      LoadPrefixWith(read, lookup, tolerant, cmds[1..], m - Size(cmds[0]), next,
        Execute(lookup, tolerant, st, cmds[0], next));
      ExpectedStep(lookup, tolerant, cmds, m, offset, st);
    }
  }

  /** What loading the first m bytes of a log comes to, for any starting point. */
  lemma LoadPrefix(lookup: Lookup, tolerant: bool, cmds: seq<Cmd>, m: nat, offset: nat, st: Progress)
    requires Log(lookup, cmds) && m <= |Encode(cmds)|
    ensures Load(lookup, tolerant, Encode(cmds)[..m], offset, st) == Expected(lookup, tolerant, cmds, m, offset, st)
  {
    ReadCommandReads();
    LoadPrefixWith(ReadCommand, lookup, tolerant, cmds, m, offset, st);
  }

  lemma {:induction false} WholeAll(cmds: seq<Cmd>)
    ensures Whole(cmds, |Encode(cmds)|) == |cmds|
    decreases |cmds|
  {
    if cmds != [] {
      WholeAll(cmds[1..]);
    }
  }

  /** The loader inverts the encoder: a log that ends outside a transaction executes what it means. */
  lemma LoadInvertsEncode(lookup: Lookup, tolerant: bool, cmds: seq<Cmd>)
    requires Log(lookup, cmds)
    ensures Load(lookup, tolerant, Encode(cmds), 0, START).1.executed == Meaning(lookup, cmds)
    ensures Load(lookup, tolerant, Encode(cmds), 0, START).0 == Loaded <==> !Open(lookup, cmds)
  {
    var m := |Encode(cmds)|;
    LoadPrefix(lookup, tolerant, cmds, m, 0, START);
    WholeAll(cmds);
    assert cmds[..|cmds|] == cmds && Encode(cmds)[..m] == Encode(cmds);
    RunMeaning(lookup, tolerant, Size, START, cmds, 0);
    assert [] + Meaning(lookup, cmds) == Meaning(lookup, cmds);
  }

  /** Any prefix of a log executes exactly the whole commands and closed transactions in it. */
  lemma LoadAnyPrefix(lookup: Lookup, tolerant: bool, cmds: seq<Cmd>, m: nat)
    requires Log(lookup, cmds) && m <= |Encode(cmds)|
    ensures Load(lookup, tolerant, Encode(cmds)[..m], 0, START).1.executed == Meaning(lookup, cmds[..Whole(cmds, m)])
  {
    LoadPrefix(lookup, tolerant, cmds, m, 0, START);
    RunMeaning(lookup, tolerant, Size, START, cmds[..Whole(cmds, m)], 0);
    assert [] + Meaning(lookup, cmds[..Whole(cmds, m)]) == Meaning(lookup, cmds[..Whole(cmds, m)]);
  }
}
