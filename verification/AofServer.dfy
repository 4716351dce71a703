/** The functions of aof.c that run the protocol's steps, on a server whose fields they update. */
module AofServer {
  import opened Options
  import opened Equality
  import opened AofFormat
  import opened AofManifest
  import opened AofReplay
  import opened AofFeed
  import opened AofProtocol
  import opened AofPaths
  import opened AofProtocolRuns
  import F = AofFlush
  import K = AofProtocolKeeps
  import L = AofLoad
  import T = AofTruncate

  // What is still to be fed makes up the rest.
  lemma FedSoFar(buf: Bytes, selected: Option<nat>, calls: seq<Op>)
    requires calls != []
    ensures Same(buf + Encode(FedAll(selected, calls)),
                 buf + Encode(FedOne(selected, calls[0])) + Encode(FedAll(Some(calls[0].db), calls[1..])))
  {
    T.EncodeAppend(FedOne(selected, calls[0]), FedAll(Some(calls[0].db), calls[1..]));
    Regroup(buf, Encode(FedOne(selected, calls[0])), Encode(FedAll(Some(calls[0].db), calls[1..])));
  }

  lemma Regroup(a: Bytes, b: Bytes, c: Bytes)
    ensures a + (b + c) == a + b + c
  {
  }

  lemma FedOneMore(
      goal: Bytes, buf: Bytes, selected: Option<nat>, calls: seq<Op>, i: nat, buf': Bytes, selected': Option<nat>)
    requires i < |calls| && Same(goal, buf + Encode(FedAll(selected, calls[i..])))
    requires buf' == buf + Encode(FedOne(selected, calls[i])) && selected' == Some(calls[i].db)
    ensures Same(goal, buf' + Encode(FedAll(selected', calls[i + 1..])))
  {
    assert calls[i..][0] == calls[i] && calls[i..][1..] == calls[i + 1..];
    FedSoFar(buf, selected, calls[i..]);
  }

  lemma NothingToFeed(buf: Bytes, selected: Option<nat>, calls: seq<Op>)
    requires calls == []
    ensures buf + Encode(FedAll(selected, calls)) == buf
  {
  }

  lemma EncodeOne(cmd: Cmd)
    ensures Encode([cmd]) == EncodeCmd(cmd)
  {
    assert [cmd][1..] == [];
  }

  lemma EncodeFedOne(selected: Option<nat>, op: Op, bytes: Bytes)
    requires bytes == (if selected != Some(op.db) then "" + EncodeCmd(SelectCmd(op.db)) else "") + EncodeCmd(op.cmd)
    ensures Same(bytes, Encode(FedOne(selected, op)))
  {
    T.EncodeAppend(Lead(selected, op.db), [op.cmd]);
    EncodeOne(op.cmd);
    if selected != Some(op.db) {
      EncodeOne(SelectCmd(op.db));
      assert "" + EncodeCmd(SelectCmd(op.db)) == EncodeCmd(SelectCmd(op.db));
    }
  }

  /** The state after these commands and what they append to the buffer. */
  ghost function FedState<Data>(exec: Executor<Data>, s: State<Data>, ops: seq<Op>): State<Data>
    requires ops != []
  {
    s.(data := ExecOps(exec, s.data, ops), selected := Some(ops[|ops| - 1].db),
       buf := s.buf + Encode(Fed(s.selected, ops)))
  }

  lemma FeedPath<Data(!new)>(exec: Executor<Data>, lookup: L.Lookup, empty: Data, s: State<Data>, ops: seq<Op>)
    requires s.pc.Idle? && s.pending == 0 && ClientOps(lookup, ops)
    ensures FedState(exec, s, ops) == FeedStep(TheWorld(exec, lookup), s, ops)
    ensures Path(TheWorld(exec, lookup), empty, true, s, [Feed(ops)], FedState(exec, s, ops))
  {
    OneStepPath(TheWorld(exec, lookup), empty, true, s, Feed(ops));
  }

  lemma HistoryLeaves(m: Manifest, fd: Name)
    requires m.history != []
    ensures WellFormed(m) && m.incrs != [] && fd == Last(m) ==>
      WellFormed(m.(history := m.history[1..], dirty := true)) && fd != m.history[0]
  {
    if WellFormed(m) && m.incrs != [] && fd == Last(m) {
      K.HistoryShrinks(m);
      K.NamesEnd(m);
    }
  }

  lemma TakeOverNames(m: Manifest, fd: Name)
    requires WellFormed(m) && m.incrs != [] && fd == Last(m)
    ensures var m' := MarkHistory(NewBase(m)).(dirty := false); WellFormed(m') && m'.incrs == [fd] && fd.IncrFile?
  {
    NewBaseKeeps(m);
    MarkHistoryKeeps(NewBase(m));
    DirtyKeeps(MarkHistory(NewBase(m)), false);
    assert m.incrs[|m.incrs| - 1] == fd;
  }

  class Aof<Data(!new)> {
    var files: map<Name, Bytes>   // the append-only directory
    var disk: Manifest            // and the manifest in it
    var am: Manifest
    var fd: Name
    var buf: Bytes
    var selected: Option<nat>
    var data: Data
    var child: Option<Data>
    const exec: Executor<Data>
    const lookup: L.Lookup
    const empty: Data
    ghost var states: seq<State<Data>>   // the run of the protocol so far
    ghost var es: seq<Event>

    ghost function W(): World<Data> {
      TheWorld(exec, lookup)
    }

    /** Between two calls, or inside one at pc, with no write under way. */
    ghost function Now(pc: Pc): State<Data>
      reads this
    {
      State(files, disk, am, fd, buf, 0, selected, data, child, pc)
    }

    /** What is on disk is what the run so far has left there. */
    ghost predicate OnRecord()
      reads this
    {
      && IsRun(W(), empty, states, es)
      && states[|es|].files == files && states[|es|].disk == disk
    }

    /** Between two calls the server is where the run so far has led. */
    ghost predicate Valid()
      reads this
    {
      IsRun(W(), empty, states, es) && states[|es|] == Now(Idle) && Named()
    }

    // The open file is the last of the manifest.
    ghost predicate Named()
      reads this
    {
      WellFormed(am) && am.incrs != [] && fd == Last(am)
    }

    /** The file that the flush works on is the open one. */
    ghost predicate Writes(out: F.Aof)
      reads this, out
    {
      out.Valid() && out.file == Contents(files, fd) && out.buf == buf
    }

    ghost predicate Clean()
      reads this
    {
      |states| == |es| + 1 && FlushesFirst(states, es)
    }

    constructor (exec: Executor<Data>, lookup: L.Lookup, empty: Data)
      ensures Valid() && Clean() && Now(Idle) == Initial(empty)
      ensures this.exec == exec && this.lookup == lookup && this.empty == empty
    {
      this.exec, this.lookup, this.empty := exec, lookup, empty;
      var m := Manifest(Some(BaseFile(1)), [IncrFile(1)], [], 1, 1, false);
      files := map[BaseFile(1) := "", IncrFile(1) := ""];
      disk, am, fd, buf, selected, data, child := m, m, IncrFile(1), "", None, empty, None;
      states, es := [Initial(empty)], [];
    }

    // The run goes on along a path.
    ghost method Record(clean: bool, more: seq<Event>, s': State<Data>)
      requires IsRun(W(), empty, states, es) && Path(W(), empty, clean, states[|es|], more, s')
      modifies `states, `es
      ensures IsRun(W(), empty, states, es) && states[|es|] == s'
      ensures clean && old(Clean()) ==> Clean()
    {
      var states' := Follow(W(), empty, clean, states, es, more, s');
      states, es := states', es + more;
    }

    method FeedAppendOnlyFile(op: Op)
      modifies `buf, `selected
      ensures buf == old(buf + Encode(FedOne(selected, op))) && selected == Some(op.db)
    {
      ghost var was := selected;
      var bytes: Bytes := "";
      if selected != Some(op.db) {
        bytes := CatAppendOnlyGenericCommand(bytes, SelectCmd(op.db));
        selected := Some(op.db);
      }
      bytes := CatAppendOnlyGenericCommand(bytes, op.cmd);
      EncodeFedOne(was, op, bytes);
      buf := buf + bytes;
    }

    // All the calls of one propagation.
    method FeedCalls(calls: seq<Op>)
      requires calls != []
      modifies `buf, `selected
      ensures buf == old(buf + Encode(FedAll(selected, calls))) && selected == Some(calls[|calls| - 1].db)
    {
      var i := 0;
      ghost var goal := buf + Encode(FedAll(selected, calls));
      assert calls[0..] == calls;
      while i < |calls|
        invariant 0 <= i <= |calls|
        invariant Same(goal, buf + Encode(FedAll(selected, calls[i..])))
        invariant i > 0 ==> selected == Some(calls[i - 1].db)
      {
        ghost var b, sel := buf, selected;
        FeedAppendOnlyFile(calls[i]);
        FedOneMore(goal, b, sel, calls, i, buf, selected);
        i := i + 1;
      }
      NothingToFeed(buf, selected, calls[i..]);
    }

    method Propagate(out: F.Aof, ops: seq<Op>)
      requires Writes(out) && ops != []
      modifies `buf, `selected, `data, out
      ensures Writes(out) && Now(Idle) == old(FedState(exec, Now(Idle), ops))
    {
      data := ExecOps(exec, data, ops);
      var calls := ops;
      if |ops| > 1 {
        calls := [Op(ops[0].db, MULTI)] + ops + [Op(ops[|ops| - 1].db, EXEC)];
      }
      FeedBoth(out, calls);
    }

    // The flush works on the same buffer.
    method FeedBoth(out: F.Aof, calls: seq<Op>)
      requires Writes(out) && calls != []
      modifies `buf, `selected, out
      ensures Writes(out) && selected == Some(calls[|calls| - 1].db)
      ensures buf == old(buf) + old(Encode(FedAll(selected, calls)))
    {
      var len := |buf|;
      FeedCalls(calls);
      out.Append(buf[len..]);
    }

    /** propagatePendingCommands: what the commands of one call have done to the dataset goes to the buffer,
        several of them as one transaction. */
    method PropagatePendingCommands(out: F.Aof, ops: seq<Op>)
      requires Valid() && Writes(out) && (ops != [] ==> ClientOps(lookup, ops))
      modifies `buf, `selected, `data, `states, `es, out
      ensures Valid() && Writes(out) && (old(Clean()) ==> Clean())
      ensures Now(Idle) == if ops == [] then old(Now(Idle)) else old(FeedStep(W(), Now(Idle), ops))
    {
      if ops == [] {
        return;
      }
      FeedPath(exec, lookup, empty, Now(Idle), ops);
      Propagate(out, ops);
      Record(true, [Feed(ops)], Now(Idle));
    }

    // How many bytes a flush gets into the file at first.
    ghost function Written(out: F.Aof, force: bool, env: F.Env): (n: nat)
      reads out
      ensures n <= |out.buf|
    {
      if out.Postpones(force, env) then 0 else F.Progress(env.writes, |out.buf|)
    }

    /** flushAppendOnlyFile on the open file is a write step and then one that keeps or takes back. */
    method Flush(out: F.Aof, force: bool, env: F.Env, ghost pc: Pc) returns (exited: bool)
      requires Writes(out)
      modifies `files, `buf, out
      ensures files == old(FlushSteps(Now(pc), Written(out, force, env), env.truncateOk)).files
      ensures !exited ==> Writes(out)
      ensures !exited ==> Now(pc) == old(FlushSteps(Now(pc), Written(out, force, env), env.truncateOk))
    {
      FlushMoves(Now(pc), Written(out, force, env), env.truncateOk);
      exited := out.FlushAppendOnlyFile(force, env);
      files, buf := files[fd := out.file], out.buf;
    }

    method FlushAppendOnlyFile(out: F.Aof, force: bool, env: F.Env) returns (exited: bool)
      requires Valid() && Writes(out)
      modifies `files, `buf, `states, `es, out
      ensures OnRecord() && (old(Clean()) ==> Clean())
      ensures !exited ==> Valid() && Writes(out)
      ensures !exited ==> Now(Idle) == old(FlushSteps(Now(Idle), Written(out, force, env), env.truncateOk))
    {
      ghost var before, n := Now(Idle), Written(out, force, env);
      exited := Flush(out, force, env, Idle);
      ghost var more := FlushPath(W(), empty, before, n, env.truncateOk);
      Record(true, more, FlushSteps(before, n, env.truncateOk));
    }

    lemma NewName()
      ensures Named() ==> WellFormed(NewIncr(am).(dirty := false)) && fd != IncrFile(NewIncr(am).incrSeq)
    {
      if Named() {
        NewIncrKeeps(am);
        DirtyKeeps(NewIncr(am), false);
        assert am.incrs[|am.incrs| - 1] == fd;
      }
    }

    method OpenNewIncrAofForAppend(openOk: bool, persistOk: bool) returns (ok: bool)
      modifies `files, `disk, `am, `fd
      ensures ok <==> openOk && persistOk
      ensures Now(if ok then Forking else Idle) == old(OpenSteps(Now(Flushing), openOk, persistOk))
      ensures ok ==> Contents(files, fd) == ""
      ensures old(Named()) ==> Named() && (!ok ==> Contents(files, fd) == old(Contents(files, fd)))
    {
      NewName();
      var temp := NewIncr(am);
      var name := IncrFile(temp.incrSeq);
      if !openOk {
        return false;
      }
      files := files[name := ""];
      if !persistOk {
        return false;
      }
      disk, temp := Persist(disk, temp), temp.(dirty := false);
      fd, am := name, temp;
      return true;
    }

    // From the forced flush to the fork.
    method Rewrite(out: F.Aof, env: F.Env, openOk: bool, persistOk: bool, forkOk: bool)
        returns (ok: bool, exited: bool)
      requires Writes(out) && Named()
      modifies `files, `disk, `am, `fd, `buf, `selected, `child, out
      ensures ok <==> !exited && openOk && persistOk && forkOk
      ensures exited ==>
        && disk == old(disk)
        && files == old(FlushSteps(BeginStep(Now(Idle)), Written(out, true, env), env.truncateOk)).files
      ensures !exited ==>
        && Now(Idle)
           == old(RewriteSteps(Now(Idle), Written(out, true, env), env.truncateOk, openOk, persistOk, forkOk))
        && Writes(out) && Named()
    {
      selected := None;
      exited := Flush(out, true, env, Flushing);
      if exited {
        return false, true;
      }
      ok := OpenNewIncrAofForAppend(openOk, persistOk);
      if ok {
        out.Reopen();
        child := if forkOk then Some(data) else None;
        ok := forkOk;
      }
    }

    // A rewrite that exits in its flush, or goes on.
    ghost method RecordRewrite(
        before: State<Data>, n: nat, env: F.Env, openOk: bool, persistOk: bool, forkOk: bool, exited: bool)
      requires IsRun(W(), empty, states, es) && states[|es|] == before
      requires before.pc.Idle? && before.pending == 0 && before.child.None? && n <= |before.buf|
      modifies `states, `es
      ensures IsRun(W(), empty, states, es)
      ensures states[|es|] == if exited then FlushSteps(BeginStep(before), n, env.truncateOk)
        else RewriteSteps(before, n, env.truncateOk, openOk, persistOk, forkOk)
      ensures old(Clean()) && (exited || !openOk || !persistOk || n == |before.buf|) ==> Clean()
    {
      if exited {
        var part := BeginFlushPath(W(), empty, before, n, env.truncateOk);
        Record(true, part, FlushSteps(BeginStep(before), n, env.truncateOk));
      } else {
        var more := RewritePath(W(), empty, before, n, env.truncateOk, openOk, persistOk, forkOk);
        Record(!openOk || !persistOk || n == |before.buf|, more,
          RewriteSteps(before, n, env.truncateOk, openOk, persistOk, forkOk));
      }
    }

    /** A run that persists every new INCR file with an empty buffer stays one unless this flush leaves bytes and
        the new file gets into the manifest on disk all the same. */
    method RewriteAppendOnlyFileBackground(out: F.Aof, env: F.Env, openOk: bool, persistOk: bool, forkOk: bool)
        returns (ok: bool, exited: bool)
      requires Valid() && Writes(out)
      modifies this, out
      ensures OnRecord() && (!exited ==> Valid() && Writes(out))
      ensures ok <==> !exited && old(child).None? && openOk && persistOk && forkOk
      ensures !exited ==> Now(Idle) == if old(child).Some? then old(Now(Idle))
        else old(RewriteSteps(Now(Idle), Written(out, true, env), env.truncateOk, openOk, persistOk, forkOk))
      ensures
        var emptied := exited || old(Written(out, true, env) == |buf|);
        old(Clean()) && (old(child).Some? || !openOk || !persistOk || emptied) ==> Clean()
    {
      if child.Some? {
        return false, false;
      }
      ghost var before, n := Now(Idle), Written(out, true, env);
      ok, exited := Rewrite(out, env, openOk, persistOk, forkOk);
      RecordRewrite(before, n, env, openOk, persistOk, forkOk, exited);
      if exited {
        FlushMoves(BeginStep(before), n, env.truncateOk);
      }
    }

    /** The child writes its file. */
    method ChildWrites(bytes: Bytes)
      requires Valid() && child.Some?
      modifies `files, `states, `es
      ensures Valid() && (old(Clean()) ==> Clean()) && Contents(files, fd) == old(Contents(files, fd))
      ensures Now(Idle) == old(ChildWritesStep(Now(Idle), bytes))
    {
      assert fd.IncrFile?;
      OneStepPath(W(), empty, true, Now(Idle), Event.ChildWrites(bytes));
      files := files[TempFile := bytes];
      Record(true, [Event.ChildWrites(bytes)], Now(Idle));
    }

    method AofDelHistoryFiles()
      modifies `files, `am
      ensures Now(Deleting) == old(DeleteAll(Now(Deleting)))
      ensures old(Named()) ==> Named() && Contents(files, fd) == old(Contents(files, fd))
    {
      while am.history != []
        invariant DeleteAll(Now(Deleting)) == old(DeleteAll(Now(Deleting)))
        invariant old(Named()) ==> Named() && Contents(files, fd) == old(Contents(files, fd))
        decreases |am.history|
      {
        HistoryLeaves(am, fd);
        files := files - {am.history[0]};
        am := am.(history := am.history[1..], dirty := true);
      }
    }

    // The deletions, and the manifest without them.
    method DeleteHistory(deletedOk: bool)
      modifies `files, `disk, `am
      ensures Now(Idle) == old(PersistDeletedStep(DeleteAll(Now(Deleting)), deletedOk))
      ensures old(Named()) ==> Named() && Contents(files, fd) == old(Contents(files, fd))
    {
      AofDelHistoryFiles();
      if deletedOk {
        disk, am := Persist(disk, am), am.(dirty := false);
      }
    }

    // The manifest with the renamed BASE file is persisted and taken over.
    method Commit(ghost base: seq<Cmd>, next: Manifest, gc: bool, deletedOk: bool)
      requires Named() && next == MarkHistory(NewBase(am))
      modifies `files, `disk, `am, `selected, `child
      ensures Now(Idle) == old(CommitSteps(Now(Renamed(NewBase(am), base)), gc, deletedOk))
      ensures Named() && Contents(files, fd) == old(Contents(files, fd))
    {
      TakeOverNames(am, fd);
      var temp := next;
      disk, temp := Persist(disk, temp), temp.(dirty := false);
      am, selected, child := temp, None, None;
      if gc && am.history != [] {
        DeleteHistory(deletedOk);
      }
    }

    // What the handler does after a child that ended well.
    method TakeOver(ghost base: seq<Cmd>, renameOk: bool, persistOk: bool, gc: bool, deletedOk: bool)
      requires Named()
      modifies `files, `disk, `am, `selected, `child
      ensures Now(Idle) == old(DoneSteps(Now(Finished(base)), renameOk, persistOk, gc, deletedOk))
      ensures Named() && Contents(files, fd) == old(Contents(files, fd))
    {
      assert fd.IncrFile?;
      var temp := NewBase(am);
      var name := BaseFile(temp.baseSeq);
      if !renameOk {
        child, files := None, files - {TempFile};
        return;
      }
      files := (files - {TempFile})[name := Contents(files, TempFile)];
      temp := MarkRewrittenIncrAofAsHistory(temp, true);
      if !persistOk {
        child, files := None, files - {name};
        return;
      }
      Commit(base, temp, gc, deletedOk);
    }

    /** backgroundRewriteDoneHandler; a child that ended well has written the commands base, which rebuild the
        dataset it was forked with. */
    method BackgroundRewriteDoneHandler(
        childOk: bool, ghost base: seq<Cmd>, renameOk: bool, persistOk: bool, gc: bool, deletedOk: bool)
      requires Valid() && child.Some? && (childOk ==> Enabled(W(), empty, Now(Idle), ChildSucceeds(base)))
      modifies `files, `disk, `am, `selected, `child, `states, `es
      ensures Valid() && (old(Clean()) ==> Clean()) && Contents(files, fd) == old(Contents(files, fd))
      ensures Now(Idle) == if !childOk then old(ChildFailsStep(Now(Idle)))
        else old(DoneSteps(Now(Finished(base)), renameOk, persistOk, gc, deletedOk))
    {
      if childOk {
        ChildSucceeded(base, renameOk, persistOk, gc, deletedOk);
      } else {
        ChildFailed();
      }
    }

    method ChildFailed()
      requires Valid() && child.Some?
      modifies `files, `child, `states, `es
      ensures Valid() && (old(Clean()) ==> Clean()) && Contents(files, fd) == old(Contents(files, fd))
      ensures Now(Idle) == old(ChildFailsStep(Now(Idle)))
    {
      assert fd.IncrFile?;
      OneStepPath(W(), empty, true, Now(Idle), ChildFails);
      child, files := None, files - {TempFile};
      Record(true, [ChildFails], Now(Idle));
    }

    method ChildSucceeded(ghost base: seq<Cmd>, renameOk: bool, persistOk: bool, gc: bool, deletedOk: bool)
      requires Valid() && Enabled(W(), empty, Now(Idle), ChildSucceeds(base))
      modifies `files, `disk, `am, `selected, `child, `states, `es
      ensures Valid() && (old(Clean()) ==> Clean()) && Contents(files, fd) == old(Contents(files, fd))
      ensures Now(Idle) == old(DoneSteps(Now(Finished(base)), renameOk, persistOk, gc, deletedOk))
    {
      ghost var more := SucceedPath(W(), empty, Now(Idle), base, renameOk, persistOk, gc, deletedOk);
      TakeOver(base, renameOk, persistOk, gc, deletedOk);
      Record(true, more, Now(Idle));
    }
  }

  lemma BeginFlushPath<Data(!new)>(w: World<Data>, empty: Data, s: State<Data>, n: nat, takenBack: bool)
      returns (es: seq<Event>)
    requires s.pc.Idle? && s.pending == 0 && s.child.None? && n <= |s.buf|
    ensures Path(w, empty, true, s, es, FlushSteps(BeginStep(s), n, takenBack))
  {
    OneStepPath(w, empty, true, s, BeginRewrite);
    var flush := FlushPath(w, empty, BeginStep(s), n, takenBack);
    PathAppend(w, empty, true, s, [BeginRewrite], BeginStep(s), flush, FlushSteps(BeginStep(s), n, takenBack));
    es := [BeginRewrite] + flush;
  }

  /** Whatever calls a server has gone through, its files on disk followed by its buffer load to its dataset. */
  lemma ServerLosesNothing<Data(!new)>(aof: Aof<Data>, tolerant: bool)
    requires aof.Valid() && aof.Clean() && KnowsTransactions(aof.lookup)
    ensures LoadFiles(FileRun(aof.exec), aof.lookup, tolerant, aof.empty, WithBuffer(aof.Now(Idle))) == Some(aof.data)
  {
    NothingLost(aof.exec, aof.lookup, tolerant, aof.empty, aof.states, aof.es, |aof.es|);
  }

  /** If it stops, also inside a call in which it exits, the files on disk load to a dataset that it had, not
      before the last moment at which nothing waited in its buffer. */
  lemma ServerRecovers<Data(!new)>(aof: Aof<Data>) returns (j: nat)
    requires aof.OnRecord() && aof.Clean() && KnowsTransactions(aof.lookup)
    ensures j < |aof.states| && forall i :: 0 <= i < |aof.states| && aof.states[i].buf == "" ==> i <= j
    ensures LoadFiles(FileRun(aof.exec), aof.lookup, true, aof.empty, OnDisk(aof.Now(Idle)))
         == Some(aof.states[j].data)
  {
    j := RestartRecovers(aof.exec, aof.lookup, aof.empty, aof.states, aof.es, |aof.es|);
    assert OnDisk(aof.Now(Idle)) == OnDisk(aof.states[|aof.es|]);
  }
}
