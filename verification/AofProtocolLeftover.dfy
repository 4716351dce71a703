/** Why the forced flush before a rewrite has to empty the buffer: what is left in it goes into the new
    INCR file although the child's dataset already contains it. */
module AofProtocolLeftover {
  import opened Options
  import opened AofFormat
  import opened AofManifest
  import opened AofReplay
  import opened AofFeed
  import opened AofProtocol
  import opened AofPaths
  import opened AofProtocolRuns
  import L = AofLoad
  import R = AofRecovery
  import AofParse

  /** A rewrite from the forced flush on in which every later call succeeds; the child writes base, and the
      buffer is flushed while it runs. */
  function WholeRewrite<Data>(s: State<Data>, written: Bytes, base: seq<Cmd>): State<Data>
    requires s.pc.Flushing?
  {
    var forked := ForkStep(OpenSteps(s, true, true), true);
    var flushed := FlushSteps(forked, |forked.buf|, false);
    var child := ChildWritesStep(flushed, written).(pc := Finished(base));
    PersistBaseStep(RenameStep(child, true), true)
  }

  lemma RewriteLeaves<Data>(s: State<Data>, written: Bytes, base: seq<Cmd>)
    requires s.pc.Flushing?
    ensures var s' := WholeRewrite(s, written, base);
      OnDisk(s') == [written, s.buf] && s'.buf == "" && s'.data == s.data
  {
    var s' := WholeRewrite(s, written, base);
    var b, n := BaseFile(s.am.baseSeq + 1), IncrFile(s.am.incrSeq + 1);
    assert s'.disk.incrs == [n];
    assert Names(s'.disk) == [b, n];
    assert s.buf[..|s.buf|] == s.buf && "" + s.buf == s.buf;
  }

  // Its steps up to the flush can come one after the other,
  lemma FlushedPath<Data(!new)>(w: World<Data>, empty: Data, s: State<Data>) returns (es: seq<Event>)
    requires s.pc.Flushing? && s.pending == 0
    ensures var forked := ForkStep(OpenSteps(s, true, true), true);
      Path(w, empty, false, s, es, FlushSteps(forked, |forked.buf|, false))
  {
    var ready := OpenSteps(s, true, true);
    es := OpenPath(w, empty, false, s, true, true);
    PathThen(w, empty, false, s, es, ready, Fork(true));
    es := es + [Fork(true)];
    var forked := ForkStep(ready, true);
    var flush := FlushPath(w, empty, forked, |forked.buf|, false);
    var flushed := FlushSteps(forked, |forked.buf|, false);
    PathAnyway(w, empty, false, forked, flush, flushed);
    PathAppend(w, empty, false, s, es, forked, flush, flushed);
    es := es + flush;
  }

  // so can those from the child's file to the new manifest,
  lemma ChildPath<Data(!new)>(w: World<Data>, empty: Data, s: State<Data>, base: seq<Cmd>) returns (es: seq<Event>)
    requires s.pc.Idle? && s.pending == 0 && s.child == Some(w.run(empty, base)) && w.closed(base)
    ensures var child := ChildWritesStep(s, w.encode(base)).(pc := Finished(base));
      Path(w, empty, false, s, es, PersistBaseStep(RenameStep(child, true), true))
  {
    var wrote := ChildWritesStep(s, w.encode(base));
    OneStepPath(w, empty, false, s, ChildWrites(w.encode(base)));
    es := [ChildWrites(w.encode(base))];
    PathThen(w, empty, false, s, es, wrote, ChildSucceeds(base));
    es := es + [ChildSucceeds(base)];
    var finished := wrote.(pc := Finished(base));
    PathThen(w, empty, false, s, es, finished, RenameBase(true));
    es := es + [RenameBase(true)];
    PathThen(w, empty, false, s, es, RenameStep(finished, true), PersistBase(true));
    es := es + [PersistBase(true)];
  }

  /** and so can all of them. */
  lemma WholeRewritePath<Data(!new)>(w: World<Data>, empty: Data, s: State<Data>, base: seq<Cmd>)
      returns (es: seq<Event>)
    requires s.pc.Flushing? && s.pending == 0 && w.closed(base) && w.run(empty, base) == s.data
    ensures Path(w, empty, false, s, es, WholeRewrite(s, w.encode(base), base))
  {
    var forked := ForkStep(OpenSteps(s, true, true), true);
    var flushed := FlushSteps(forked, |forked.buf|, false);
    es := FlushedPath(w, empty, s);
    FlushMoves(forked, |forked.buf|, false);
    var rest := ChildPath(w, empty, flushed, base);
    PathAppend(w, empty, false, s, es, flushed, rest, WholeRewrite(s, w.encode(base), base));
    es := es + rest;
  }

  // ----- what the finished rewrite loads to

  lemma LoadNext<Data>(
      run: Runner<Data>, lookup: L.Lookup, tolerant: bool, data: Data, file: Bytes, log: seq<Cmd>, more: seq<Bytes>)
    requires Yields(lookup, tolerant, file, log, true)
    ensures LoadFiles(run, lookup, tolerant, data, [file] + more)
         == LoadFiles(run, lookup, tolerant, run(data, R.Meaning(lookup, log)), more)
  {
    assert ([file] + more)[1..] == more;
  }

  lemma LoadOnly<Data>(run: Runner<Data>, lookup: L.Lookup, tolerant: bool, data: Data, file: Bytes)
    ensures var (outcome, st) := L.Load(lookup, tolerant, file, 0, L.START);
      LoadFiles(run, lookup, tolerant, data, [file])
      == if outcome == L.Failed then None else Some(run(data, st.executed))
  {
    assert [file][1..] == [];
  }

  lemma TwoFiles<Data>(
      exec: Executor<Data>, lookup: L.Lookup, tolerant: bool, empty: Data, base: seq<Cmd>, second: Bytes)
    requires Closed(lookup, base)
    ensures var d := RunFile(exec, empty, R.Meaning(lookup, base));
      var (outcome, st) := L.Load(lookup, tolerant, second, 0, L.START);
      LoadFiles(FileRun(exec), lookup, tolerant, empty, [Encode(base), second])
      == if outcome == L.Failed then None else Some(RunFile(exec, d, st.executed))
  {
    WholeFileLoads(lookup, tolerant, base);
    LoadNext(FileRun(exec), lookup, tolerant, empty, Encode(base), base, [second]);
    assert [Encode(base)] + [second] == [Encode(base), second];
    LoadOnly(FileRun(exec), lookup, tolerant, RunFile(exec, empty, R.Meaning(lookup, base)), second);
  }

  /** Whatever bytes are left in the buffer, the finished rewrite cannot be loaded if they do not load as a
      file; otherwise it loads to what their commands make of the dataset once more. So the files give the
      dataset exactly when the bytes load and running their commands again, from database 0, changes nothing. */
  lemma LeftoverExact<Data(!new)>(
      exec: Executor<Data>, lookup: L.Lookup, tolerant: bool, empty: Data, s: State<Data>, base: seq<Cmd>)
    requires s.pc.Flushing? && Closed(lookup, base) && RunFile(exec, empty, R.Meaning(lookup, base)) == s.data
    ensures var s' := WholeRewrite(s, Encode(base), base);
      var (outcome, st) := L.Load(lookup, tolerant, s.buf, 0, L.START);
      var loaded := LoadFiles(FileRun(exec), lookup, tolerant, empty, OnDisk(s'));
      && s'.data == s.data
      && loaded == (if outcome == L.Failed then None else Some(RunFile(exec, s.data, st.executed)))
      && (loaded == Some(s'.data) <==> outcome != L.Failed && RunFile(exec, s.data, st.executed) == s.data)
  {
    RewriteLeaves(s, Encode(base), base);
    TwoFiles(exec, lookup, tolerant, empty, base, s.buf);
  }

  /** Whole commands that are left run twice. */
  lemma LeftoverRunsTwice<Data(!new)>(
      exec: Executor<Data>, lookup: L.Lookup, tolerant: bool, empty: Data, s: State<Data>, left: seq<Cmd>,
      base: seq<Cmd>)
    requires s.pc.Flushing? && s.buf == Encode(left) && Closed(lookup, left)
    requires Closed(lookup, base) && RunFile(exec, empty, R.Meaning(lookup, base)) == s.data
    ensures var s' := WholeRewrite(s, Encode(base), base);
      LoadFiles(FileRun(exec), lookup, tolerant, empty, OnDisk(s'))
      == Some(RunFile(exec, s'.data, R.Meaning(lookup, left)))
  {
    LeftoverExact(exec, lookup, tolerant, empty, s, base);
    WholeFileLoads(lookup, tolerant, left);
  }

  /** What starts in the middle of a command cannot be loaded. */
  lemma FragmentFails(lookup: L.Lookup, tolerant: bool, bytes: Bytes)
    requires bytes != "" && bytes[0] != '*' && bytes[0] != '#'
    ensures L.Load(lookup, tolerant, bytes, 0, L.START).0 == L.Failed
  {
    assert AofParse.ReadCommand(bytes) == AofParse.Malformed;
  }

  /** A buffer that starts in the middle of a command, with a byte that starts neither a command nor an
      annotation, makes the finished rewrite impossible to load. */
  lemma LeftoverCannotLoad<Data(!new)>(
      exec: Executor<Data>, lookup: L.Lookup, tolerant: bool, empty: Data, s: State<Data>, base: seq<Cmd>)
    requires s.pc.Flushing? && s.buf != "" && s.buf[0] != '*' && s.buf[0] != '#'
    requires Closed(lookup, base) && RunFile(exec, empty, R.Meaning(lookup, base)) == s.data
    ensures var s' := WholeRewrite(s, Encode(base), base);
      LoadFiles(FileRun(exec), lookup, tolerant, empty, OnDisk(s')) == None
  {
    LeftoverExact(exec, lookup, tolerant, empty, s, base);
    FragmentFails(lookup, tolerant, s.buf);
  }

  // ----- runs that get there

  // A dataset that counts the commands it has run.
  function Counter(data: nat, db: nat, cmd: Cmd): nat {
    data + 1
  }

  lemma CountsOne(p: Pos<nat>, cmd: Cmd)
    requires !IsSelect(cmd)
    ensures RunCmds(Counter, p, [cmd]) == Pos(p.data + 1, p.db)
  {
    assert [cmd][1..] == [];
    assert Apply(Counter, p, cmd) == Pos(p.data + 1, p.db);
    assert RunCmds(Counter, Apply(Counter, p, cmd), []) == Apply(Counter, p, cmd);
  }

  lemma CountsSelected(d: nat, cmd: Cmd)
    requires !IsSelect(cmd)
    ensures RunFile(Counter, d, [SelectCmd(0), cmd]) == d + 1
  {
    SelectApplied(Counter, Pos(d, 0), 0);
    assert [SelectCmd(0), cmd][1..] == [cmd];
    CountsOne(Pos(d, 0), cmd);
  }

  lemma FirstFed(cmd: Cmd)
    ensures Fed(None, [Op(0, cmd)]) == [SelectCmd(0), cmd]
  {
    var op := Op(0, cmd);
    assert [op][1..] == [];
    assert FedAll(Some(0), []) == [];
    assert FedOne(None, op) + [] == [SelectCmd(0), cmd];
  }

  // A server that has run one command.
  ghost function OneFed(cmd: Cmd): State<nat> {
    Initial(0).(data := 1, selected := Some(0), buf := Encode([SelectCmd(0), cmd]))
  }

  lemma OneFedPath(lookup: L.Lookup, cmd: Cmd)
    requires ClientOp(lookup, Op(0, cmd))
    ensures Path(TheWorld(Counter, lookup), 0, false, Initial(0), [Feed([Op(0, cmd)])], OneFed(cmd))
  {
    var w, s, ops := TheWorld(Counter, lookup), Initial(0), [Op(0, cmd)];
    FirstFed(cmd);
    assert ops[1..] == [];
    assert ExecOps(Counter, 0, ops) == ExecOps(Counter, 1, []) == 1;
    assert "" + Encode([SelectCmd(0), cmd]) == Encode([SelectCmd(0), cmd]);
    OneStepPath(w, 0, false, s, Feed(ops));
  }

  // A path from the state after the first command, through a rewrite with bytes left, is a run.
  lemma LeftoverRun(lookup: L.Lookup, cmd: Cmd, part: seq<Event>, s: State<nat>)
      returns (states: seq<State<nat>>, es: seq<Event>)
    requires KnowsTransactions(lookup) && ClientOp(lookup, Op(0, cmd))
    requires Path(TheWorld(Counter, lookup), 0, false, OneFed(cmd), part, s)
    requires s.pc.Flushing? && s.pending == 0 && s.data == 1
    ensures IsRun(TheWorld(Counter, lookup), 0, states, es)
    ensures states[|es|] == WholeRewrite(s, Encode([cmd]), [cmd])
    ensures Closed(lookup, [cmd]) && R.Meaning(lookup, [cmd]) == [cmd] && RunFile(Counter, 0, [cmd]) == 1
  {
    var w := TheWorld(Counter, lookup);
    PlainCloses(lookup, [cmd]);
    CountsOne(Pos(0, 0), cmd);
    OneFedPath(lookup, cmd);
    PathAppend(w, 0, false, Initial(0), [Feed([Op(0, cmd)])], OneFed(cmd), part, s);
    var rest := WholeRewritePath(w, 0, s, [cmd]);
    var s' := WholeRewrite(s, Encode([cmd]), [cmd]);
    es := [Feed([Op(0, cmd)])] + part;
    PathAppend(w, 0, false, Initial(0), es, s, rest, s');
    es := es + rest;
    states := Follow(w, 0, false, [Initial(0)], [], es, s');
    assert [] + es == es;
  }

  /** A run in which a flush fails before a rewrite: the command that stayed in the buffer is counted twice. */
  lemma RunsTwice(lookup: L.Lookup, cmd: Cmd) returns (states: seq<State<nat>>, es: seq<Event>)
    requires KnowsTransactions(lookup) && ClientOp(lookup, Op(0, cmd))
    ensures IsRun(TheWorld(Counter, lookup), 0, states, es)
    ensures states[|es|].data == 1 && states[|es|].buf == ""
    ensures LoadFiles(FileRun(Counter), lookup, true, 0, OnDisk(states[|es|])) == Some(2)
  {
    var w, s := TheWorld(Counter, lookup), BeginStep(OneFed(cmd));
    OneStepPath(w, 0, false, OneFed(cmd), BeginRewrite);
    states, es := LeftoverRun(lookup, cmd, [BeginRewrite], s);
    RewriteLeaves(s, Encode([cmd]), [cmd]);
    CountedTwice(lookup, cmd, s);
  }

  lemma CountedTwice(lookup: L.Lookup, cmd: Cmd, s: State<nat>)
    requires KnowsTransactions(lookup) && ClientOp(lookup, Op(0, cmd))
    requires s.pc.Flushing? && s.data == 1 && s.buf == Encode([SelectCmd(0), cmd])
    requires Closed(lookup, [cmd]) && R.Meaning(lookup, [cmd]) == [cmd] && RunFile(Counter, 0, [cmd]) == 1
    ensures LoadFiles(FileRun(Counter), lookup, true, 0, OnDisk(WholeRewrite(s, Encode([cmd]), [cmd]))) == Some(2)
  {
    var left := [SelectCmd(0), cmd];
    SelectFits(0);
    PlainCloses(lookup, left);
    RewriteLeaves(s, Encode([cmd]), [cmd]);
    LeftoverRunsTwice(Counter, lookup, true, 0, s, left, [cmd]);
    CountsSelected(1, cmd);
  }

  /** A run in which a flush gets one byte out and cannot take it back: after the rewrite the server cannot
      restart. */
  lemma CannotRestart(lookup: L.Lookup, cmd: Cmd) returns (states: seq<State<nat>>, es: seq<Event>)
    requires KnowsTransactions(lookup) && ClientOp(lookup, Op(0, cmd))
    ensures IsRun(TheWorld(Counter, lookup), 0, states, es)
    ensures states[|es|].data == 1 && states[|es|].buf == ""
    ensures LoadFiles(FileRun(Counter), lookup, true, 0, OnDisk(states[|es|])) == None
  {
    var w, fed := TheWorld(Counter, lookup), OneFed(cmd);
    SecondByte(cmd);
    var flushed := FlushSteps(fed, 1, false);
    FlushMoves(fed, 1, false);
    var flush := FlushPath(w, 0, fed, 1, false);
    PathAnyway(w, 0, false, fed, flush, flushed);
    PathThen(w, 0, false, fed, flush, flushed, BeginRewrite);
    var s := BeginStep(flushed);
    states, es := LeftoverRun(lookup, cmd, flush + [BeginRewrite], s);
    RewriteLeaves(s, Encode([cmd]), [cmd]);
    LeftoverCannotLoad(Counter, lookup, true, 0, s, [cmd]);
  }

  lemma SecondByte(cmd: Cmd)
    ensures var bytes := Encode([SelectCmd(0), cmd]); |bytes| > 1 && bytes[1] == '2'
  {
    assert Digits(2) == "2";
    var h := Header('*', 2);
    assert h == "*" + "2" + CRLF;
    assert Encode([SelectCmd(0), cmd]) == h + EncodeArgs(SelectCmd(0)) + Encode([SelectCmd(0), cmd][1..]);
  }
}
