/** Stopping at any moment and starting again: what the loader leaves on disk, and whether the next life of the
    server can go on with it. */
module AofRestart {
  import opened Options
  import opened Equality
  import opened AofFormat
  import opened AofManifest
  import opened AofReplay
  import opened AofFeed
  import opened AofProtocol
  import opened AofProtocolKeeps
  import opened AofProtocolRuns
  import L = AofLoad
  import R = AofRecovery
  import T = AofTruncate
  import AofParse

  /** The file that was open last, as a stop leaves it and as the loader leaves it then. */
  ghost function LastFile<Data>(s: State<Data>): Bytes
    requires s.disk.incrs != []
  {
    Contents(s.files, Last(s.disk))
  }

  /** What the loader leaves can be loaded to its end. */
  ghost predicate StopsCleanly<Data>(lookup: L.Lookup, s: State<Data>)
    requires s.disk.incrs != []
  {
    L.Load(lookup, true, T.AfterLoad(lookup, LastFile(s)), 0, L.START).0 == L.Loaded
  }

  /** A start after a stop, with the manifest m that was read: the files are loaded, the last one is cut where it
      has to be and opened for appending, and history files are deleted if gc says so. */
  ghost function Restarted<Data>(lookup: L.Lookup, s: State<Data>, m: Manifest, data: Data, gc: bool): State<Data>
    requires m.incrs != []
  {
    var last := Last(m);
    State(s.files[last := T.AfterLoad(lookup, Contents(s.files, last))], m, m, last, "", 0, None, data, None,
          if gc && m.history != [] then Deleting else Idle)
  }

  /** The manifest on disk is read as it was persisted, its numbers taken from the names. */
  lemma DiskReadBack<Data>(w: World<Data>, empty: Data, s: State<Data>, logs: Logs)
    requires Inv(w, empty, s, logs)
    ensures ReadLines(NO_FILES, Lines(s.disk)) == Some(s.disk)
  {
    ManifestReadBack(s.disk);
  }

  /** The loader leaves this log in a file, after it has run what it means; the log loads to its end unless it
      ends inside a transaction. */
  ghost predicate Leaves(lookup: L.Lookup, file: Bytes, left: seq<Cmd>) {
    && R.Log(lookup, left) && Same(T.AfterLoad(lookup, file), Encode(left))
    && (L.Load(lookup, true, Encode(left), 0, L.START).0 == L.Loaded <==> !R.Open(lookup, left))
    && Yields(lookup, true, file, left, false)
  }

  lemma CutLeaves(lookup: L.Lookup, log: seq<Cmd>, m: nat, k: nat)
    requires R.Log(lookup, log) && m <= |Encode(log)| && k == T.Kept(lookup, log, m)
    requires L.Load(lookup, true, Encode(log)[..m], 0, L.START).0.Truncated?
    ensures Leaves(lookup, Encode(log)[..m], log[..k])
  {
    T.CutAt(lookup, log, m);
    R.LoadInvertsEncode(lookup, true, log[..k]);
  }

  lemma WholeLeaves(lookup: L.Lookup, log: seq<Cmd>, m: nat, k: nat)
    requires R.Log(lookup, log) && m <= |Encode(log)| && k == R.Whole(log, m)
    requires L.Load(lookup, true, Encode(log)[..m], 0, L.START).0 == L.Loaded && m <= |Encode(log[..k])|
    ensures Leaves(lookup, Encode(log)[..m], log[..k])
  {
    WholePrefix(log, m, k);
    R.LoadAnyPrefix(lookup, true, log, m);
    R.LoadInvertsEncode(lookup, true, log[..k]);
  }

  lemma WholePrefix(log: seq<Cmd>, m: nat, k: nat)
    requires m <= |Encode(log)| && k == R.Whole(log, m) && m <= |Encode(log[..k])|
    ensures Same(Encode(log)[..m], Encode(log[..k]))
  {
    T.WholeFits(log, m);
    T.EncodePrefix(log, k, m);
    assert Encode(log)[..m][..m] == Encode(log)[..m];
  }

  // A part of the log stays in the file, wherever it was cut.
  lemma PartLeft(lookup: L.Lookup, log: seq<Cmd>, m: nat) returns (k: nat)
    requires R.Log(lookup, log) && m <= |Encode(log)|
    ensures k <= |log| && Leaves(lookup, Encode(log)[..m], log[..k])
  {
    R.LoadPrefix(lookup, true, log, m, 0, L.START);
    if L.Load(lookup, true, Encode(log)[..m], 0, L.START).0.Truncated? {
      k := T.Kept(lookup, log, m);
      CutLeaves(lookup, log, m, k);
    } else {
      k := R.Whole(log, m);
      WholeLeaves(lookup, log, m, k);
    }
  }

  /** The file as the loader leaves it loads to its end unless the log was torn inside a command of an open
      transaction. */
  lemma StopsExact(lookup: L.Lookup, log: seq<Cmd>, m: nat)
    requires Closed(lookup, log) && m <= |Encode(log)|
    ensures L.Load(lookup, true, T.AfterLoad(lookup, Encode(log)[..m]), 0, L.START).0 == L.Loaded
       <==> !T.TornInside(lookup, log, m)
  {
    R.LoadPrefix(lookup, true, log, m, 0, L.START);
    if L.Load(lookup, true, Encode(log)[..m], 0, L.START).0.Truncated? {
      T.ReloadsUnlessTorn(lookup, log, m);
    }
  }

  // The last file and its log.
  lemma LastCut<Data(!new)>(exec: Executor<Data>, lookup: L.Lookup, empty: Data, s: State<Data>, logs: Logs)
    requires Inv(TheWorld(exec, lookup), empty, s, logs)
    ensures var log, m := LogOf(logs, Last(s.disk)), |LastFile(s)|;
      Closed(lookup, log) && m <= |Encode(log)| && Same(LastFile(s), Encode(log)[..m])
  {
    NamesEnd(s.disk);
    var at: nat := |Names(s.disk)| - 1;
    assert Names(s.disk)[at] == Last(s.disk);
    var m := DiskFile(TheWorld(exec, lookup), empty, s, logs, at);
    assert OnDisk(s)[at] == LastFile(s);
  }

  lemma StateStopsExact<Data(!new)>(exec: Executor<Data>, lookup: L.Lookup, empty: Data, s: State<Data>, logs: Logs)
    requires Inv(TheWorld(exec, lookup), empty, s, logs)
    ensures StopsCleanly(lookup, s) <==> !T.TornInside(lookup, LogOf(logs, Last(s.disk)), |LastFile(s)|)
  {
    LastCut(exec, lookup, empty, s, logs);
    StopsExact(lookup, LogOf(logs, Last(s.disk)), |LastFile(s)|);
  }

  lemma LastLeft<Data(!new)>(exec: Executor<Data>, lookup: L.Lookup, empty: Data, s: State<Data>, logs: Logs)
      returns (k: nat)
    requires Inv(TheWorld(exec, lookup), empty, s, logs)
    ensures k <= |LogOf(logs, Last(s.disk))| && Leaves(lookup, LastFile(s), LogOf(logs, Last(s.disk))[..k])
  {
    LastCut(exec, lookup, empty, s, logs);
    k := PartLeft(lookup, LogOf(logs, Last(s.disk)), |LastFile(s)|);
  }

  /** What is on disk at any moment of a run, in terms of its logs: the earlier files whole, the last one cut. */
  lemma OnDiskParts<Data(!new)>(exec: Executor<Data>, lookup: L.Lookup, empty: Data, s: State<Data>, logs: Logs)
      returns (k: nat)
    requires Inv(TheWorld(exec, lookup), empty, s, logs)
    ensures k <= |LogOf(logs, Last(s.disk))| && Leaves(lookup, LastFile(s), LogOf(logs, Last(s.disk))[..k])
    ensures var w := TheWorld(exec, lookup);
      Same(LoadFiles(FileRun(exec), lookup, true, empty, OnDisk(s)),
           Some(w.run(Before(w, empty, s.disk, logs), LogOf(logs, Last(s.disk))[..k])))
  {
    k := LastLeft(exec, lookup, empty, s, logs);
    LastPartLoads(exec, lookup, empty, s, logs, LogOf(logs, Last(s.disk))[..k]);
  }

  lemma LastPartLoads<Data(!new)>(
      exec: Executor<Data>, lookup: L.Lookup, empty: Data, s: State<Data>, logs: Logs, left: seq<Cmd>)
    requires Inv(TheWorld(exec, lookup), empty, s, logs) && Yields(lookup, true, LastFile(s), left, false)
    ensures var w := TheWorld(exec, lookup);
      Same(LoadFiles(FileRun(exec), lookup, true, empty, OnDisk(s)), Some(w.run(Before(w, empty, s.disk, logs), left)))
  {
    NamesEnd(s.disk);
    var earlier := LogsOf(logs, Earlier(s.disk));
    assert OnDisk(s)[|earlier|] == LastFile(s);
    forall i | 0 <= i < |earlier|
      ensures Yields(lookup, true, OnDisk(s)[i], earlier[i], true)
    {
      EarlierWhole(exec, lookup, empty, s, logs, i);
    }
    FilesLoadLast(FileRun(exec), lookup, true, empty, OnDisk(s), earlier, left);
  }

  // The last file with the part of its log that is left; the others are as they were.
  lemma RestartFiles<Data>(
      w: World<Data>, files: map<Name, Bytes>, names: seq<Name>, fd: Name, buf: Bytes, pending: nat, logs: Logs,
      last: Name, log: seq<Cmd>)
    requires FilesOk(w, files, names, fd, buf, pending, logs) && w.closed(log) && (fd == last || buf == "")
    ensures FilesOk(w, files[last := w.encode(log)], names, last, "", 0, logs[last := log])
  {
    forall name | name in names
      ensures HoldsLog(w, files[last := w.encode(log)], name, Tail("", 0, last, name), logs[last := log])
    {
      assert HoldsLog(w, files, name, Tail(buf, pending, fd, name), logs);
      assert Tail("", 0, last, name) == "" && w.encode(log) + "" == w.encode(log);
    }
  }

  lemma RestartManifest(disk: Manifest, am: Manifest, fd: Name, pc: Pc, pc': Pc)
    requires ManifestOk(disk, am, fd, pc) && (pc'.Idle? || pc'.Deleting?)
    ensures ManifestOk(disk, disk, Last(disk), pc') && Last(disk) !in Earlier(disk)
  {
    DiskNames(disk, am, fd, pc);
  }

  lemma RestartInv<Data(!new)>(
      w: World<Data>, empty: Data, s: State<Data>, logs: Logs, s': State<Data>, log: seq<Cmd>)
    requires Inv(w, empty, s, logs) && w.closed(log) && s'.data == w.run(Before(w, empty, s.disk, logs), log)
    requires s'.disk == s.disk == s'.am && s'.fd == Last(s.disk) && (s'.pc.Idle? || s'.pc.Deleting?)
    requires s'.buf == "" && s'.pending == 0 && s'.selected.None? && s'.child.None?
    requires s'.files == s.files[Last(s.disk) := w.encode(log)]
    ensures Inv(w, empty, s', logs[Last(s.disk) := log])
  {
    RestartManifest(s.disk, s.am, s.fd, s.pc, s'.pc);
    RestartFiles(w, s.files, Names(s.disk), s.fd, s.buf, s.pending, logs, Last(s.disk), log);
    BeforeSame(w, empty, s.disk, logs, log);
  }

  lemma RestartedShape<Data>(lookup: L.Lookup, s: State<Data>, d: Data, gc: bool, left: seq<Cmd>)
    requires s.disk.incrs != [] && Leaves(lookup, LastFile(s), left)
    ensures var s' := Restarted(lookup, s, s.disk, d, gc);
      && s'.disk == s.disk == s'.am && s'.fd == Last(s.disk) && (s'.pc.Idle? || s'.pc.Deleting?)
      && s'.buf == "" && s'.pending == 0 && s'.selected.None? && s'.child.None? && s'.data == d
      && s'.files == s.files[Last(s.disk) := Encode(left)]
  {
  }

  /** After a clean stop the server starts again from what is on disk, and everything that the protocol relies on
      holds again. */
  lemma RestartKeeps<Data(!new)>(
      exec: Executor<Data>, lookup: L.Lookup, empty: Data, s: State<Data>, logs: Logs, m: Manifest, d: Data, gc: bool)
      returns (logs': Logs)
    requires Inv(TheWorld(exec, lookup), empty, s, logs) && StopsCleanly(lookup, s)
    requires ReadLines(NO_FILES, Lines(s.disk)) == Some(m)
    requires LoadFiles(FileRun(exec), lookup, true, empty, OnDisk(s)) == Some(d)
    ensures m == s.disk && Inv(TheWorld(exec, lookup), empty, Restarted(lookup, s, m, d, gc), logs')
  {
    DiskReadBack(TheWorld(exec, lookup), empty, s, logs);
    var log := LogOf(logs, Last(s.disk));
    var k := OnDiskParts(exec, lookup, empty, s, logs);
    LastCut(exec, lookup, empty, s, logs);
    T.NotNestedPrefix(lookup, log, k);
    RestartedShape(lookup, s, d, gc, log[..k]);
    RestartInv(TheWorld(exec, lookup), empty, s, logs, Restarted(lookup, s, s.disk, d, gc), log[..k]);
    logs' := logs[Last(s.disk) := log[..k]];
  }

  // ----- life after life

  /** The steps between a start and a stop. */
  datatype Life<Data> = Life(states: seq<State<Data>>, es: seq<Event>)

  ghost predicate IsLife<Data(!new)>(w: World<Data>, empty: Data, life: Life<Data>) {
    IsTrace(w, empty, life.states, life.es) && FlushesFirst(life.states, life.es)
  }

  ghost function End<Data>(life: Life<Data>): State<Data>
    requires life.states != []
  {
    life.states[|life.states| - 1]
  }

  /** The state s is what a server starts with after the state end: it has read the manifest, loaded the files and
      gone on. */
  ghost predicate StartsFrom<Data(!new)>(
      exec: Executor<Data>, lookup: L.Lookup, empty: Data, end: State<Data>, s: State<Data>, m: Manifest, d: Data,
      gc: bool)
  {
    && ReadLines(NO_FILES, Lines(end.disk)) == Some(m) && m.incrs != []
    && LoadFiles(FileRun(exec), lookup, true, empty, OnDisk(end)) == Some(d)
    && s == Restarted(lookup, end, m, d, gc)
  }

  /** A life starts with what the one before has left on disk. */
  ghost predicate Succeeds<Data(!new)>(
      exec: Executor<Data>, lookup: L.Lookup, empty: Data, life: Life<Data>, next: Life<Data>)
  {
    && life.states != [] && next.states != [] && End(life).disk.incrs != [] && StopsCleanly(lookup, End(life))
    && exists m, d, gc :: StartsFrom(exec, lookup, empty, End(life), next.states[0], m, d, gc)
  }

  /** Any number of lives, the first one from an empty server, each with its steps and its stop anywhere. */
  ghost predicate Lives<Data(!new)>(exec: Executor<Data>, lookup: L.Lookup, empty: Data, lives: seq<Life<Data>>) {
    && lives != [] && (forall i :: 0 <= i < |lives| ==> IsLife(TheWorld(exec, lookup), empty, lives[i]))
    && lives[0].states[0] == Initial(empty)
    && forall i :: 0 < i < |lives| ==> Succeeds(exec, lookup, empty, lives[i - 1], lives[i])
  }

  lemma NextLife<Data(!new)>(
      exec: Executor<Data>, lookup: L.Lookup, empty: Data, life: Life<Data>, next: Life<Data>, logs: Logs)
      returns (logs': Logs)
    requires Succeeds(exec, lookup, empty, life, next) && Inv(TheWorld(exec, lookup), empty, End(life), logs)
    ensures Inv(TheWorld(exec, lookup), empty, next.states[0], logs') && next.states[0].buf == ""
  {
    var m, d, gc :| StartsFrom(exec, lookup, empty, End(life), next.states[0], m, d, gc);
    logs' := RestartKeeps(exec, lookup, empty, End(life), logs, m, d, gc);
  }

  // Every life starts well.
  lemma {:induction false} LivesStart<Data(!new)>(
      exec: Executor<Data>, lookup: L.Lookup, empty: Data, lives: seq<Life<Data>>, i: nat)
      returns (logs: Logs)
    requires Lawful(TheWorld(exec, lookup)) && Lives(exec, lookup, empty, lives) && i < |lives|
    ensures IsLife(TheWorld(exec, lookup), empty, lives[i])
    ensures Inv(TheWorld(exec, lookup), empty, lives[i].states[0], logs) && lives[i].states[0].buf == ""
    decreases i
  {
    if i == 0 {
      logs := StartsWell(TheWorld(exec, lookup), empty);
    } else {
      var before := LivesStart(exec, lookup, empty, lives, i - 1);
      logs := StartAfter(exec, lookup, empty, lives[i - 1], lives[i], before);
    }
  }

  lemma StartAfter<Data(!new)>(
      exec: Executor<Data>, lookup: L.Lookup, empty: Data, life: Life<Data>, next: Life<Data>, first: Logs)
      returns (logs: Logs)
    requires Lawful(TheWorld(exec, lookup)) && IsLife(TheWorld(exec, lookup), empty, life)
    requires Succeeds(exec, lookup, empty, life, next) && Inv(TheWorld(exec, lookup), empty, life.states[0], first)
    ensures Inv(TheWorld(exec, lookup), empty, next.states[0], logs) && next.states[0].buf == ""
  {
    var end := TraceKeeps(TheWorld(exec, lookup), empty, life.states, life.es, first, |life.states| - 1);
    logs := NextLife(exec, lookup, empty, life, next, end);
  }

  /** At every moment of every life the files hold logs. */
  lemma LivesKeep<Data(!new)>(
      exec: Executor<Data>, lookup: L.Lookup, empty: Data, lives: seq<Life<Data>>, i: nat, k: nat)
      returns (logs: Logs)
    requires KnowsTransactions(lookup) && Lives(exec, lookup, empty, lives)
    requires i < |lives| && k < |lives[i].states|
    ensures Inv(TheWorld(exec, lookup), empty, lives[i].states[k], logs)
  {
    WorldLawful(exec, lookup);
    var first := LivesStart(exec, lookup, empty, lives, i);
    logs := TraceKeeps(TheWorld(exec, lookup), empty, lives[i].states, lives[i].es, first, k);
  }

  /** Over any number of stops and starts, the files on disk followed by the buffer load to the current dataset,
      and the files on disk alone to one that the server had in this life, not before the last moment at which
      nothing waited in the buffer. */
  lemma NothingLostOverRestarts<Data(!new)>(
      exec: Executor<Data>, lookup: L.Lookup, empty: Data, lives: seq<Life<Data>>, i: nat, k: nat)
      returns (j: nat)
    requires KnowsTransactions(lookup) && Lives(exec, lookup, empty, lives)
    requires i < |lives| && k < |lives[i].states|
    ensures var s := lives[i].states[k];
      s.pending <= |s.buf| && LoadFiles(FileRun(exec), lookup, true, empty, WithBuffer(s)) == Some(s.data)
    ensures j <= k && forall n :: 0 <= n <= k && lives[i].states[n].buf == "" ==> n <= j
    ensures LoadFiles(FileRun(exec), lookup, true, empty, OnDisk(lives[i].states[k])) == Some(lives[i].states[j].data)
  {
    var logs := LivesKeep(exec, lookup, empty, lives, i, k);
    WithBufferLoads(exec, lookup, true, empty, lives[i].states[k], logs);
    WorldLawful(exec, lookup);
    var first := LivesStart(exec, lookup, empty, lives, i);
    j := TraceRecovers(exec, lookup, empty, lives[i].states, lives[i].es, first, k);
  }

  /** A stop at any moment of any life is clean unless the last file ends inside a command of an open transaction
      of its log. */
  lemma StopsCleanlyUnlessTorn<Data(!new)>(
      exec: Executor<Data>, lookup: L.Lookup, empty: Data, lives: seq<Life<Data>>, i: nat, k: nat)
      returns (logs: Logs)
    requires KnowsTransactions(lookup) && Lives(exec, lookup, empty, lives)
    requires i < |lives| && k < |lives[i].states|
    ensures Inv(TheWorld(exec, lookup), empty, lives[i].states[k], logs)
    ensures var s := lives[i].states[k];
      StopsCleanly(lookup, s) <==> !T.TornInside(lookup, LogOf(logs, Last(s.disk)), |LastFile(s)|)
  {
    logs := LivesKeep(exec, lookup, empty, lives, i, k);
    StateStopsExact(exec, lookup, empty, lives[i].states[k], logs);
  }

  // ----- stops that are not clean

  // A log is never refused, wherever it is cut.
  lemma NeverFails(lookup: L.Lookup, log: seq<Cmd>)
    requires R.Log(lookup, log)
    ensures L.Load(lookup, true, Encode(log), 0, L.START).0 != L.Failed
  {
    var bytes := Encode(log);
    var k := PartLeft(lookup, log, |bytes|);
    assert bytes[..|bytes|] == bytes;
  }

  // What is fed after an open transaction takes no effect.
  lemma SwallowedFile(lookup: L.Lookup, log: seq<Cmd>, more: seq<Cmd>)
    requires R.Log(lookup, log) && R.Open(lookup, log) && PlainLog(lookup, more)
    ensures Yields(lookup, true, Encode(log) + Encode(more), log, false)
  {
    T.EncodeAppend(log, more);
    T.Swallowed(lookup, log, more);
    NeverFails(lookup, log + more);
    R.LoadInvertsEncode(lookup, true, log + more);
  }

  lemma TornFile<Data(!new)>(
      exec: Executor<Data>, lookup: L.Lookup, empty: Data, s: State<Data>, logs: Logs, s': State<Data>, bytes: Bytes,
      i: nat)
    requires Inv(TheWorld(exec, lookup), empty, s, logs) && s'.pending == 0 && i < |Earlier(s.disk)|
    requires s'.disk == s.disk && s'.fd == Last(s.disk) && s'.files == s.files[Last(s.disk) := bytes]
    ensures Yields(lookup, true, WithBuffer(s')[i], LogsOf(logs, Earlier(s.disk))[i], true)
  {
    var name := Names(s.disk)[i];
    EarlierName(s.disk, s.am, s.fd, s.pc, i);
    EarlierWhole(exec, lookup, empty, s, logs, i);
    assert Contents(s'.files, name) + "" == Contents(s.files, name);
  }

  // The last file with the buffer after it.
  lemma TornLast<Data>(s': State<Data>, bytes: Bytes)
    requires s'.pending == 0 && s'.disk.incrs != [] && s'.fd == Last(s'.disk)
    requires s'.fd in s'.files && s'.files[s'.fd] == bytes
    ensures |WithBuffer(s')| == |Earlier(s'.disk)| + 1 && WithBuffer(s')[|Earlier(s'.disk)|] == bytes + s'.buf
  {
    NamesEnd(s'.disk);
    assert s'.buf[0..] == s'.buf;
  }

  lemma TornLoads<Data(!new)>(
      exec: Executor<Data>, lookup: L.Lookup, empty: Data, s: State<Data>, logs: Logs, s': State<Data>, log: seq<Cmd>,
      more: seq<Cmd>)
    requires Inv(TheWorld(exec, lookup), empty, s, logs) && s'.pending == 0 && Same(s'.buf, Encode(more))
    requires s'.disk == s.disk && s'.fd == Last(s.disk) && s'.files == s.files[Last(s.disk) := Encode(log)]
    requires Yields(lookup, true, Encode(log) + Encode(more), log, false)
    ensures var w := TheWorld(exec, lookup);
      LoadFiles(FileRun(exec), lookup, true, empty, WithBuffer(s'))
      == Some(w.run(Before(w, empty, s.disk, logs), log))
  {
    var earlier := LogsOf(logs, Earlier(s.disk));
    TornLast(s', Encode(log));
    forall i | 0 <= i < |earlier|
      ensures Yields(lookup, true, WithBuffer(s')[i], earlier[i], true)
    {
      TornFile(exec, lookup, empty, s, logs, s', Encode(log), i);
    }
    FilesLoadLast(FileRun(exec), lookup, true, empty, WithBuffer(s'), earlier, log);
  }

  lemma OneOp<Data>(exec: Executor<Data>, d: Data, op: Op)
    ensures ExecOps(exec, d, [op]) == exec(d, op.db, op.cmd)
  {
    assert [op][1..] == [];
    assert ExecOps(exec, d, [op]) == ExecOps(exec, exec(d, op.db, op.cmd), []);
  }

  /** After a stop that is not clean, the server starts with the same dataset, but a command that it runs next is
      swallowed by the open transaction in the file: the files load to the dataset without it. */
  lemma TornStopLoses<Data(!new)>(
      exec: Executor<Data>, lookup: L.Lookup, empty: Data, s: State<Data>, logs: Logs, d: Data, op: Op)
    requires KnowsTransactions(lookup) && Inv(TheWorld(exec, lookup), empty, s, logs) && !StopsCleanly(lookup, s)
    requires LoadFiles(FileRun(exec), lookup, true, empty, OnDisk(s)) == Some(d) && ClientOp(lookup, op)
    ensures var s' := FeedStep(TheWorld(exec, lookup), Restarted(lookup, s, s.disk, d, false), [op]);
      && s'.data == exec(d, op.db, op.cmd)
      && LoadFiles(FileRun(exec), lookup, true, empty, WithBuffer(s')) == Some(d)
  {
    var k := OnDiskParts(exec, lookup, empty, s, logs);
    var left := LogOf(logs, Last(s.disk))[..k];
    var more := FedAfter(exec, lookup, s, d, left, op);
    TornFeedLost(exec, lookup, empty, s, logs, d, left, more,
      FeedStep(TheWorld(exec, lookup), Restarted(lookup, s, s.disk, d, false), [op]));
  }

  lemma TornFeedLost<Data(!new)>(
      exec: Executor<Data>, lookup: L.Lookup, empty: Data, s: State<Data>, logs: Logs, d: Data, left: seq<Cmd>,
      more: seq<Cmd>, s': State<Data>)
    requires PlainLog(lookup, more) && Inv(TheWorld(exec, lookup), empty, s, logs)
    requires R.Log(lookup, left) && R.Open(lookup, left)
    requires var w := TheWorld(exec, lookup); d == w.run(Before(w, empty, s.disk, logs), left)
    requires s'.pending == 0 && s'.disk == s.disk && s'.fd == Last(s.disk)
    requires s'.files == s.files[Last(s.disk) := Encode(left)] && Same(s'.buf, Encode(more))
    ensures LoadFiles(FileRun(exec), lookup, true, empty, WithBuffer(s')) == Some(d)
  {
    SwallowedFile(lookup, left, more);
    TornLoads(exec, lookup, empty, s, logs, s', left, more);
  }

  // What the restarted server has fed.
  lemma FedAfter<Data(!new)>(
      exec: Executor<Data>, lookup: L.Lookup, s: State<Data>, d: Data, left: seq<Cmd>, op: Op)
      returns (more: seq<Cmd>)
    requires KnowsTransactions(lookup) && ClientOp(lookup, op)
    requires s.disk.incrs != [] && Leaves(lookup, LastFile(s), left)
    ensures PlainLog(lookup, more)
    ensures var s' := FeedStep(TheWorld(exec, lookup), Restarted(lookup, s, s.disk, d, false), [op]);
      && s'.pending == 0 && s'.disk == s.disk && s'.fd == Last(s.disk)
      && s'.files == s.files[Last(s.disk) := Encode(left)]
      && Same(s'.buf, Encode(more)) && s'.data == exec(d, op.db, op.cmd)
  {
    more := Fed(None, [op]);
    FedPlain(lookup, None, [op]);
    RestartedShape(lookup, s, d, false, left);
    OneOp(exec, d, op);
    assert "" + Encode(more) == Encode(more);
  }

  // ----- a run that stops inside a transaction

  // One byte of the third command is there, the second opened a transaction.
  lemma TornThird(lookup: L.Lookup, log: seq<Cmd>, m: nat)
    requires |log| >= 3 && lookup(log[0]) == L.Plain && lookup(log[1]) == L.Multi && AofParse.Writable(log[2])
    requires m == R.Size(log[0]) + R.Size(log[1]) + 1
    ensures m <= |Encode(log)| && R.Whole(log, m) == 2 && T.TornInside(lookup, log, m)
  {
    var one, two, whole := log[1..], log[2..], log[..2];
    assert one[1..] == two && one[0] == log[1] && two[0] == log[2];
    AofParse.HeaderShape('*', |log[2]|);
    assert R.Whole(two, 1) == 0 && R.Whole(one, R.Size(log[1]) + 1) == 1;
    assert whole[1..] == [log[1]] && whole[1..][1..] == [];
    assert Encode(whole) == EncodeCmd(log[0]) + (EncodeCmd(log[1]) + "");
    assert R.NextExec(lookup, whole[1..]) == 1;
  }

  lemma BlockFed(lookup: L.Lookup, ops: seq<Op>, log: seq<Cmd>)
    requires KnowsTransactions(lookup) && |ops| > 1 && ClientOps(lookup, ops) && log == Fed(None, ops)
    ensures |log| >= 3 && log[0] == SelectCmd(ops[0].db) && log[1] == MULTI && log[2] == ops[0].cmd
  {
    FedBlock(None, ops);
  }

  // What is on disk: the first two commands, which do nothing.
  lemma TornLoadsNothing<Data(!new)>(
      exec: Executor<Data>, lookup: L.Lookup, empty: Data, s: State<Data>, logs: Logs, log: seq<Cmd>)
    requires Inv(TheWorld(exec, lookup), empty, s, logs) && Before(TheWorld(exec, lookup), empty, s.disk, logs) == empty
    requires log == LogOf(logs, Last(s.disk)) && |log| >= 2 && R.Whole(log, |LastFile(s)|) == 2
    requires TheWorld(exec, lookup).run(empty, log[..2]) == empty
    ensures LoadFiles(FileRun(exec), lookup, true, empty, OnDisk(s)) == Some(empty)
  {
    LastCut(exec, lookup, empty, s, logs);
    CutFileLoads(lookup, log, |LastFile(s)|);
    LastPartLoads(exec, lookup, empty, s, logs, log[..2]);
  }

  // What a feed of an empty server adds to its log does nothing until it is complete.
  lemma FirstFeed<Data(!new)>(w: World<Data>, empty: Data, ops: seq<Op>, log: seq<Cmd>, k: nat)
    requires Lawful(w) && ops != [] && w.client(ops) && log == w.fed(None, ops) && k < |log|
    ensures w.run(empty, log[..k]) == empty
  {
    assert FeedLaws(w, [], None, empty, ops);
    assert [] + log[..k] == log[..k];
  }

  // The server after its first commands.
  lemma FedFirst<Data(!new)>(w: World<Data>, empty: Data, ops: seq<Op>, s: State<Data>, log: seq<Cmd>)
      returns (logs: Logs)
    requires Lawful(w) && ops != [] && w.client(ops) && log == w.fed(None, ops)
    requires s == FeedStep(w, Initial(empty), ops)
    ensures Inv(w, empty, s, logs) && LogOf(logs, Last(s.disk)) == log && Before(w, empty, s.disk, logs) == empty
    ensures s.buf == w.encode(log)
  {
    var start := Initial(empty);
    var first := StartsWell(w, empty);
    assert Before(w, empty, start.disk, first) == empty;
    assert FeedLaws(w, [], None, empty, ops);
    logs := FeedKeeps(w, empty, start, first, ops);
    assert [] + log == log && "" + w.encode(log) == w.encode(log);
  }

  // A feed of the empty server, and a write.
  lemma FeedAndWrite<Data(!new)>(w: World<Data>, empty: Data, ops: seq<Op>, s: State<Data>, m: nat)
      returns (states: seq<State<Data>>, es: seq<Event>)
    requires ops != [] && w.client(ops) && s == FeedStep(w, Initial(empty), ops) && m <= |s.buf|
    ensures IsRun(w, empty, states, es) && FlushesFirst(states, es) && |states| == 3 && states[2] == WriteStep(s, m)
  {
    states, es := [Initial(empty), s, WriteStep(s, m)], [Feed(ops), Write(m)];
  }

  /** A run that stops uncleanly: several commands are run in one call, and the process stops when one byte of
      the first of them is in the file, after SELECT and MULTI. The command that the restarted server runs next
      is not there when the files, with the buffer written out, are loaded again. */
  lemma UncleanStop<Data(!new)>(exec: Executor<Data>, lookup: L.Lookup, empty: Data, ops: seq<Op>, next: Op)
      returns (states: seq<State<Data>>, es: seq<Event>)
    requires KnowsTransactions(lookup) && |ops| > 1 && ClientOps(lookup, ops) && ClientOp(lookup, next)
    ensures IsRun(TheWorld(exec, lookup), empty, states, es) && FlushesFirst(states, es) && |states| == 3
    ensures states[2].disk.incrs != [] && !StopsCleanly(lookup, states[2])
    ensures LoadFiles(FileRun(exec), lookup, true, empty, OnDisk(states[2])) == Some(empty)
    ensures ReadLines(NO_FILES, Lines(states[2].disk)) == Some(states[2].disk)
    ensures var again := Restarted(lookup, states[2], states[2].disk, empty, false);
      var s := FeedStep(TheWorld(exec, lookup), again, [next]);
      && s.pending <= |s.buf| && s.data == exec(empty, next.db, next.cmd)
      && LoadFiles(FileRun(exec), lookup, true, empty, WithBuffer(s)) == Some(empty)
  {
    var w, log := TheWorld(exec, lookup), Fed(None, ops);
    WorldLawful(exec, lookup);
    BlockFed(lookup, ops, log);
    var m := R.Size(log[0]) + R.Size(log[1]) + 1;
    TornThird(lookup, log, m);
    var s := FeedStep(w, Initial(empty), ops);
    var logs := FedFirst(w, empty, ops, s, log);
    FirstFeed(w, empty, ops, log, 2);
    states, es := FeedAndWrite(w, empty, ops, s, m);
    TornWrite(exec, lookup, empty, s, logs, log, m);
    TornStopLoses(exec, lookup, empty, states[2], logs, empty, next);
  }

  lemma TornWrite<Data(!new)>(
      exec: Executor<Data>, lookup: L.Lookup, empty: Data, s: State<Data>, logs: Logs, log: seq<Cmd>, m: nat)
    requires Inv(TheWorld(exec, lookup), empty, s, logs) && log == LogOf(logs, Last(s.disk))
    requires s.pc.Idle? && s.pending == 0 && s.fd == Last(s.disk) && Contents(s.files, s.fd) == "" && m <= |s.buf|
    requires R.Whole(log, m) == 2 && T.TornInside(lookup, log, m)
    requires var w := TheWorld(exec, lookup);
      Before(w, empty, s.disk, logs) == empty && |log| > 2 && w.run(empty, log[..2]) == empty
    ensures var s' := WriteStep(s, m);
      && Inv(TheWorld(exec, lookup), empty, s', logs) && !StopsCleanly(lookup, s')
      && LoadFiles(FileRun(exec), lookup, true, empty, OnDisk(s')) == Some(empty)
      && ReadLines(NO_FILES, Lines(s'.disk)) == Some(s'.disk)
  {
    var s' := WriteStep(s, m);
    WriteKeeps(TheWorld(exec, lookup), empty, s, logs, m);
    assert |LastFile(s')| == m;
    StateStopsExact(exec, lookup, empty, s', logs);
    TornLoadsNothing(exec, lookup, empty, s', logs, log);
    DiskReadBack(TheWorld(exec, lookup), empty, s', logs);
  }
}
