/** Every step of the append-only file protocol keeps its invariant, part by part. */
module AofProtocolKeeps {
  import opened Options
  import opened AofFormat
  import opened AofManifest
  import opened AofReplay
  import opened AofFeed
  import opened AofProtocol

  lemma NamesEnd(m: Manifest)
    requires m.incrs != []
    ensures Names(m) == Earlier(m) + [Last(m)]
    ensures WellFormed(m) ==> Last(m) !in Earlier(m) && Last(m) in Names(m)
  {
    assert Names(m)[|Names(m)| - 1] == Last(m);
    if WellFormed(m) {
      NamesDistinct(m);
    }
  }

  // Changing the log of a file that is not among these.
  lemma LogsSame(logs: Logs, names: seq<Name>, name: Name, log: seq<Cmd>)
    requires name !in names
    ensures LogsOf(logs[name := log], names) == LogsOf(logs, names)
  {
  }

  lemma DiskNames(disk: Manifest, am: Manifest, fd: Name, pc: Pc)
    requires ManifestOk(disk, am, fd, pc)
    ensures Names(disk) == Names(Held(am, pc)) && Names(disk) == Earlier(disk) + [Last(disk)]
    ensures Last(disk) !in Earlier(disk) && Last(disk) in Names(disk) && Last(disk).IncrFile?
    ensures forall name :: name in Names(disk) ==> Used(Held(am, pc), name)
  {
    NamesEnd(disk);
    NamesDistinct(Held(am, pc));
  }

  // ----- the files

  lemma FeedFiles<Data>(
      w: World<Data>, files: map<Name, Bytes>, names: seq<Name>, fd: Name, buf: Bytes, logs: Logs, more: seq<Cmd>)
    requires FilesOk(w, files, names, fd, buf, 0, logs) && fd in names
    requires var log := logs[fd]; w.closed(log + more) && w.encode(log + more) == w.encode(log) + w.encode(more)
    ensures FilesOk(w, files, names, fd, buf + w.encode(more), 0, logs[fd := logs[fd] + more])
  {
    var buf', logs' := buf + w.encode(more), logs[fd := logs[fd] + more];
    assert HoldsLog(w, files, fd, Tail(buf, 0, fd, fd), logs);
    assert buf[0..] == buf && buf'[0..] == buf';
    assert files[fd] + buf' == files[fd] + buf + w.encode(more);
    forall name | name in names
      ensures HoldsLog(w, files, name, Tail(buf', 0, fd, name), logs')
    {
      assert HoldsLog(w, files, name, Tail(buf, 0, fd, name), logs);
    }
  }

  // The open file changes, and what follows it changes with it.
  lemma OpenFileChanges<Data>(
      w: World<Data>, files: map<Name, Bytes>, files': map<Name, Bytes>, names: seq<Name>, fd: Name, buf: Bytes,
      pending: nat, buf': Bytes, pending': nat, logs: Logs)
    requires FilesOk(w, files, names, fd, buf, pending, logs) && PendingOk(files', fd, buf', pending') && fd in names
    requires forall name :: name in names && name != fd ==> name in files' && files'[name] == Contents(files, name)
    requires fd in files' && files'[fd] + buf'[pending'..] == Contents(files, fd) + buf[pending..]
    ensures FilesOk(w, files', names, fd, buf', pending', logs)
  {
    forall name | name in names
      ensures HoldsLog(w, files', name, Tail(buf', pending', fd, name), logs)
    {
      assert HoldsLog(w, files, name, Tail(buf, pending, fd, name), logs);
    }
  }

  lemma WriteFiles<Data>(
      w: World<Data>, files: map<Name, Bytes>, names: seq<Name>, fd: Name, buf: Bytes, n: nat, logs: Logs)
    requires FilesOk(w, files, names, fd, buf, 0, logs) && fd in names && n <= |buf|
    ensures FilesOk(w, files[fd := Contents(files, fd) + buf[..n]], names, fd, buf, n, logs)
  {
    var was := Contents(files, fd);
    var files' := files[fd := was + buf[..n]];
    forall name | name in names
      ensures name in files
    {
      assert HoldsLog(w, files, name, Tail(buf, 0, fd, name), logs);
    }
    assert files'[fd][|files'[fd]| - n..] == buf[..n];
    assert was + buf[..n] + buf[n..] == was + buf[0..];
    OpenFileChanges(w, files, files', names, fd, buf, 0, buf, n, logs);
  }

  lemma KeepFiles<Data>(
      w: World<Data>, files: map<Name, Bytes>, names: seq<Name>, fd: Name, buf: Bytes, pending: nat, logs: Logs)
    requires FilesOk(w, files, names, fd, buf, pending, logs) && fd in names
    ensures FilesOk(w, files, names, fd, buf[pending..], 0, logs)
  {
    forall name | name in names
      ensures name in files
    {
      assert HoldsLog(w, files, name, Tail(buf, pending, fd, name), logs);
    }
    assert buf[pending..][0..] == buf[pending..];
    OpenFileChanges(w, files, files, names, fd, buf, pending, buf[pending..], 0, logs);
  }

  lemma TakeBackFiles<Data>(
      w: World<Data>, files: map<Name, Bytes>, names: seq<Name>, fd: Name, buf: Bytes, pending: nat, logs: Logs)
    requires FilesOk(w, files, names, fd, buf, pending, logs) && fd in names && pending > 0
    ensures FilesOk(w, TakenBack(files, fd, pending), names, fd, buf, 0, logs)
  {
    var was := Contents(files, fd);
    var k := |was| - pending;
    forall name | name in names
      ensures name in files
    {
      assert HoldsLog(w, files, name, Tail(buf, pending, fd, name), logs);
    }
    assert was == was[..k] + buf[..pending];
    assert was[..k] + buf[0..] == was + buf[pending..];
    OpenFileChanges(w, files, files[fd := was[..k]], names, fd, buf, pending, buf, 0, logs);
  }

  // Steps that touch no file to load.
  lemma OtherFiles<Data>(
      w: World<Data>, files: map<Name, Bytes>, files': map<Name, Bytes>, names: seq<Name>, fd: Name, buf: Bytes,
      pending: nat, logs: Logs)
    requires FilesOk(w, files, names, fd, buf, pending, logs) && fd in names
    requires forall name :: name in names && name in files ==> name in files' && files'[name] == files[name]
    ensures FilesOk(w, files', names, fd, buf, pending, logs)
  {
    assert HoldsLog(w, files, fd, Tail(buf, pending, fd, fd), logs);
    forall name | name in names
      ensures HoldsLog(w, files', name, Tail(buf, pending, fd, name), logs)
    {
      assert HoldsLog(w, files, name, Tail(buf, pending, fd, name), logs);
    }
  }

  // A new file to load, with an empty log, while nothing is buffered.
  lemma NewFileFiles<Data>(
      w: World<Data>, files: map<Name, Bytes>, names: seq<Name>, names': seq<Name>, fd: Name, name: Name,
      log: seq<Cmd>, buf: Bytes, logs: Logs)
    requires FilesOk(w, files, names, fd, buf, 0, logs) && name != fd && w.closed(log)
    requires name in files && files[name] == w.encode(log)
    requires forall n :: n in names' ==> n == name || n in names
    ensures FilesOk(w, files, names', fd, buf, 0, logs[name := log])
  {
    assert files[name] + "" == files[name];
    forall n | n in names'
      ensures HoldsLog(w, files, n, Tail(buf, 0, fd, n), logs[name := log])
    {
      if n != name {
        assert HoldsLog(w, files, n, Tail(buf, 0, fd, n), logs);
      }
    }
  }

  // With nothing in the buffer any file may be the open one.
  lemma SwitchFiles<Data>(w: World<Data>, files: map<Name, Bytes>, names: seq<Name>, fd: Name, fd': Name, logs: Logs)
    requires FilesOk(w, files, names, fd, "", 0, logs)
    ensures FilesOk(w, files, names, fd', "", 0, logs)
  {
    forall name | name in names
      ensures HoldsLog(w, files, name, Tail("", 0, fd', name), logs)
    {
      assert HoldsLog(w, files, name, Tail("", 0, fd, name), logs);
      assert Tail("", 0, fd', name) == Tail("", 0, fd, name) == "";
    }
  }

  // ----- feeding

  /** What a feed appends to a log does when it is replayed from the dataset d, whole or torn. */
  ghost predicate FeedLaws<Data(!new)>(w: World<Data>, log: seq<Cmd>, selected: Option<nat>, d: Data, ops: seq<Op>)
    requires ops != []
  {
    var more := w.fed(selected, ops);
    && w.closed(log + more)
    && w.encode(log + more) == w.encode(log) + w.encode(more)
    && w.run(d, log + more) == w.exec(w.run(d, log), ops)
    && w.endDb(log + more) == ops[|ops| - 1].db
    && forall k :: 0 <= k < |more| ==> w.run(d, log + more[..k]) == w.run(d, log)
  }

  /** What the protocol relies on. */
  ghost predicate Lawful<Data(!new)>(w: World<Data>) {
    && w.closed([]) && w.encode([]) == "" && (forall d :: w.run(d, []) == d)
    && forall log: seq<Cmd>, selected: Option<nat>, d: Data, ops: seq<Op>
         {:trigger FeedLaws(w, log, selected, d, ops)} ::
         ops != [] && w.client(ops) && w.closed(log) && (selected.Some? ==> w.endDb(log) == selected.value) ==>
           FeedLaws(w, log, selected, d, ops)
  }

  // The dataset before the last file does not depend on the log of the last one.
  lemma BeforeSame<Data>(w: World<Data>, empty: Data, m: Manifest, logs: Logs, log: seq<Cmd>)
    requires m.incrs != [] && Last(m) !in Earlier(m)
    ensures Before(w, empty, m, logs[Last(m) := log]) == Before(w, empty, m, logs)
  {
    LogsSame(logs, Earlier(m), Last(m), log);
  }

  lemma FeedData<Data(!new)>(
      w: World<Data>, empty: Data, disk: Manifest, data: Data, selected: Option<nat>, child: Option<Data>, logs: Logs,
      ops: seq<Op>)
    requires disk.incrs != [] && Last(disk) !in Earlier(disk)
    requires DataOk(w, empty, disk, Last(disk), data, selected, child, logs)
    requires ops != [] && FeedLaws(w, LogOf(logs, Last(disk)), selected, Before(w, empty, disk, logs), ops)
    ensures DataOk(w, empty, disk, Last(disk), w.exec(data, ops), Some(ops[|ops| - 1].db), child,
                   logs[Last(disk) := LogOf(logs, Last(disk)) + w.fed(selected, ops)])
    ensures var log' := LogOf(logs, Last(disk)) + w.fed(selected, ops);
      Before(w, empty, disk, logs[Last(disk) := log']) == Before(w, empty, disk, logs)
  {
    BeforeSame(w, empty, disk, logs, LogOf(logs, Last(disk)) + w.fed(selected, ops));
  }

  lemma FeedKeeps<Data(!new)>(w: World<Data>, empty: Data, s: State<Data>, logs: Logs, ops: seq<Op>)
      returns (logs': Logs)
    requires Inv(w, empty, s, logs) && s.pc.Idle? && s.pending == 0 && ops != []
    requires FeedLaws(w, LogOf(logs, s.fd), s.selected, Before(w, empty, s.disk, logs), ops)
    ensures Inv(w, empty, FeedStep(w, s, ops), logs')
    ensures logs' == logs[s.fd := LogOf(logs, s.fd) + w.fed(s.selected, ops)]
    ensures Before(w, empty, s.disk, logs') == Before(w, empty, s.disk, logs)
  {
    var more := w.fed(s.selected, ops);
    DiskNames(s.disk, s.am, s.fd, s.pc);
    assert HoldsLog(w, s.files, s.fd, Tail(s.buf, 0, s.fd, s.fd), logs);
    FeedFiles(w, s.files, Names(s.disk), s.fd, s.buf, logs, more);
    FeedData(w, empty, s.disk, s.data, s.selected, s.child, logs, ops);
    logs' := logs[s.fd := logs[s.fd] + more];
  }

  // ----- flushing

  lemma WriteKeeps<Data>(w: World<Data>, empty: Data, s: State<Data>, logs: Logs, n: nat)
    requires Inv(w, empty, s, logs) && (s.pc.Idle? || s.pc.Flushing?) && s.pending == 0 && n <= |s.buf|
    ensures Inv(w, empty, WriteStep(s, n), logs)
  {
    DiskNames(s.disk, s.am, s.fd, s.pc);
    WriteFiles(w, s.files, Names(s.disk), s.fd, s.buf, n, logs);
  }

  // A write is under way only between two steps of the server.
  lemma PendingPc<Data>(w: World<Data>, empty: Data, s: State<Data>, logs: Logs)
    requires Inv(w, empty, s, logs) && s.pending > 0
    ensures s.pc.Idle? || s.pc.Flushing?
  {
  }

  lemma KeepKeeps<Data>(w: World<Data>, empty: Data, s: State<Data>, logs: Logs)
    requires Inv(w, empty, s, logs) && s.pending > 0
    ensures Inv(w, empty, KeepStep(s), logs)
  {
    PendingPc(w, empty, s, logs);
    DiskNames(s.disk, s.am, s.fd, s.pc);
    KeepFiles(w, s.files, Names(s.disk), s.fd, s.buf, s.pending, logs);
  }

  lemma TakeBackKeeps<Data>(w: World<Data>, empty: Data, s: State<Data>, logs: Logs)
    requires Inv(w, empty, s, logs) && 0 < s.pending < |s.buf|
    ensures Inv(w, empty, TakeBackStep(s), logs)
  {
    PendingPc(w, empty, s, logs);
    DiskNames(s.disk, s.am, s.fd, s.pc);
    TakeBackFiles(w, s.files, Names(s.disk), s.fd, s.buf, s.pending, logs);
  }

  // ----- opening a new INCR file

  lemma BeginKeeps<Data>(w: World<Data>, empty: Data, s: State<Data>, logs: Logs)
    requires Inv(w, empty, s, logs) && s.pc.Idle? && s.child.None?
    ensures Inv(w, empty, BeginStep(s), logs)
  {
  }

  lemma NewIncrFresh(disk: Manifest, am: Manifest, fd: Name, pc: Pc)
    requires ManifestOk(disk, am, fd, pc) && Held(am, pc) == am
    ensures IncrFile(NewIncr(am).incrSeq) !in Names(disk) && fd in Names(disk) && IncrFile(NewIncr(am).incrSeq) != fd
  {
    DiskNames(disk, am, fd, pc);
    NewIncrKeeps(am);
  }

  lemma OpenKeeps<Data>(w: World<Data>, empty: Data, s: State<Data>, logs: Logs, ok: bool)
    requires Inv(w, empty, s, logs) && s.pc.Flushing? && s.pending == 0
    ensures Inv(w, empty, OpenStep(s, ok), logs)
  {
    if ok {
      NewIncrFresh(s.disk, s.am, s.fd, s.pc);
      var name := IncrFile(NewIncr(s.am).incrSeq);
      OtherFiles(w, s.files, s.files[name := ""], Names(s.disk), s.fd, s.buf, s.pending, logs);
    }
  }

  // A new last file with an empty log: all the others come before it.
  lemma NewFileData<Data>(w: World<Data>, empty: Data, disk: Manifest, disk': Manifest, name: Name, logs: Logs)
    requires disk.incrs != [] && disk'.incrs != [] && Names(disk') == Names(disk) + [name] && name !in Names(disk)
    ensures Before(w, empty, disk', logs[name := []]) == w.run(Before(w, empty, disk, logs), LogOf(logs, Last(disk)))
  {
    var log := LogOf(logs, Last(disk));
    NamesEnd(disk);
    assert Earlier(disk') == Names(disk);
    LogsSame(logs, Names(disk), name, []);
    assert LogsOf(logs, Names(disk)) == LogsOf(logs, Earlier(disk)) + [log];
    ReplayLast(w.run, empty, LogsOf(logs, Earlier(disk)), log);
  }

  // The manifest with the new INCR file on disk.
  lemma PersistIncrManifest(disk: Manifest, am: Manifest, fd: Name, temp: Manifest)
    requires ManifestOk(disk, am, fd, Opened(temp)) && temp == NewIncr(am)
    ensures var disk', name := temp.(dirty := false), IncrFile(temp.incrSeq);
      && ManifestOk(disk', am, fd, Persisted(disk')) && Last(disk') == name && Names(disk') == Names(disk) + [name]
  {
    NewIncrKeeps(am);
    DirtyKeeps(temp, false);
    DiskNames(disk, am, fd, Opened(temp));
  }

  lemma PersistIncrKeeps<Data>(w: World<Data>, empty: Data, s: State<Data>, logs: Logs) returns (logs': Logs)
    requires Inv(w, empty, s, logs) && s.pc.Opened? && s.buf == ""
    requires w.closed([]) && w.encode([]) == "" && w.run(s.data, []) == s.data
    ensures Inv(w, empty, PersistIncrStep(s, true), logs')
    ensures var disk := PersistIncrStep(s, true).disk;
      Before(w, empty, disk, logs') == s.data && LogOf(logs', Last(disk)) == []
  {
    var temp := s.pc.temp;
    var disk', name := temp.(dirty := false), IncrFile(temp.incrSeq);
    logs' := logs[name := []];
    PersistIncrManifest(s.disk, s.am, s.fd, temp);
    NewIncrFresh(s.disk, s.am, s.fd, s.pc);
    NewFileFiles(w, s.files, Names(s.disk), Names(disk'), s.fd, name, [], "", logs);
    NewFileData(w, empty, s.disk, disk', name, logs);
  }

  lemma PersistIncrFails<Data>(w: World<Data>, empty: Data, s: State<Data>, logs: Logs)
    requires Inv(w, empty, s, logs) && s.pc.Opened?
    ensures Inv(w, empty, PersistIncrStep(s, false), logs)
  {
  }

  lemma SwitchIncrKeeps<Data>(w: World<Data>, empty: Data, s: State<Data>, logs: Logs)
    requires Inv(w, empty, s, logs) && s.pc.Persisted?
    ensures Inv(w, empty, SwitchIncrStep(s), logs)
  {
    SwitchFiles(w, s.files, Names(s.disk), s.fd, IncrFile(s.pc.temp.incrSeq), logs);
  }

  lemma ForkKeeps<Data>(w: World<Data>, empty: Data, s: State<Data>, logs: Logs, ok: bool)
    requires Inv(w, empty, s, logs) && s.pc.Forking?
    requires w.run(Before(w, empty, s.disk, logs), []) == Before(w, empty, s.disk, logs)
    ensures Inv(w, empty, ForkStep(s, ok), logs)
  {
  }

  // ----- the child ends

  lemma TempNotLoaded(disk: Manifest, am: Manifest, fd: Name, pc: Pc)
    requires ManifestOk(disk, am, fd, pc)
    ensures TempFile !in Names(disk)
  {
    DiskNames(disk, am, fd, pc);
  }

  lemma ChildWritesKeeps<Data>(w: World<Data>, empty: Data, s: State<Data>, logs: Logs, bytes: Bytes)
    requires Inv(w, empty, s, logs) && s.pc.Idle?
    ensures Inv(w, empty, ChildWritesStep(s, bytes), logs)
  {
    TempNotLoaded(s.disk, s.am, s.fd, s.pc);
    DiskNames(s.disk, s.am, s.fd, s.pc);
    OtherFiles(w, s.files, s.files[TempFile := bytes], Names(s.disk), s.fd, s.buf, s.pending, logs);
  }

  lemma ChildFailsKeeps<Data>(w: World<Data>, empty: Data, s: State<Data>, logs: Logs)
    requires Inv(w, empty, s, logs) && s.pc.Idle?
    ensures Inv(w, empty, ChildFailsStep(s), logs)
  {
    TempNotLoaded(s.disk, s.am, s.fd, s.pc);
    DiskNames(s.disk, s.am, s.fd, s.pc);
    OtherFiles(w, s.files, s.files - {TempFile}, Names(s.disk), s.fd, s.buf, s.pending, logs);
  }

  lemma ChildSucceedsKeeps<Data(!new)>(w: World<Data>, empty: Data, s: State<Data>, logs: Logs, base: seq<Cmd>)
    requires Inv(w, empty, s, logs) && Enabled(w, empty, s, ChildSucceeds(base))
    ensures Inv(w, empty, s.(pc := Finished(base)), logs)
  {
  }

  lemma NewBaseFresh(disk: Manifest, am: Manifest, fd: Name, pc: Pc)
    requires ManifestOk(disk, am, fd, pc) && Held(am, pc) == am
    ensures TempFile !in Names(disk) && BaseFile(NewBase(am).baseSeq) !in Names(disk) && fd in Names(disk)
    ensures BaseFile(NewBase(am).baseSeq) != fd
  {
    DiskNames(disk, am, fd, pc);
    NewBaseKeeps(am);
  }

  lemma RenameKeeps<Data>(w: World<Data>, empty: Data, s: State<Data>, logs: Logs)
    requires Inv(w, empty, s, logs) && s.pc.Finished?
    ensures Inv(w, empty, RenameStep(s, true), logs)
  {
    NewBaseFresh(s.disk, s.am, s.fd, s.pc);
    OtherFiles(w, s.files, RenameStep(s, true).files, Names(s.disk), s.fd, s.buf, s.pending, logs);
  }

  lemma RenameFails<Data>(w: World<Data>, empty: Data, s: State<Data>, logs: Logs)
    requires Inv(w, empty, s, logs) && s.pc.Finished?
    ensures Inv(w, empty, RenameStep(s, false), logs)
  {
    NewBaseFresh(s.disk, s.am, s.fd, s.pc);
    OtherFiles(w, s.files, s.files - {TempFile}, Names(s.disk), s.fd, s.buf, s.pending, logs);
  }

  lemma NewBaseData<Data>(w: World<Data>, empty: Data, disk: Manifest, base: Name, fd: Name, log: seq<Cmd>, logs: Logs)
    requires disk.incrs != [] && Names(disk) == [base, fd]
    ensures Before(w, empty, disk, logs[base := log]) == w.run(empty, log)
  {
    assert Earlier(disk) == [base];
    assert LogsOf(logs[base := log], [base]) == [] + [log];
    ReplayLast(w.run, empty, [], log);
  }

  // The new BASE file and the open INCR file are all there is to load.
  lemma PersistBaseManifest(disk: Manifest, am: Manifest, fd: Name, temp: Manifest, base: seq<Cmd>)
    requires ManifestOk(disk, am, fd, Renamed(temp, base)) && temp == NewBase(am)
    ensures var disk' := MarkHistory(temp).(dirty := false);
      && ManifestOk(disk', am, fd, Committed(disk', base)) && Last(disk') == fd
      && Names(disk') == [BaseFile(temp.baseSeq), fd] && MarkHistory(temp).dirty
      && MarkHistory(temp).baseSeq == temp.baseSeq
  {
    NewBaseKeeps(am);
    MarkHistoryKeeps(temp);
    DirtyKeeps(MarkHistory(temp), false);
  }

  lemma PersistBaseKeeps<Data>(w: World<Data>, empty: Data, s: State<Data>, logs: Logs) returns (logs': Logs)
    requires Inv(w, empty, s, logs) && s.pc.Renamed?
    ensures Inv(w, empty, PersistBaseStep(s, true), logs')
    ensures var disk := PersistBaseStep(s, true).disk;
      && Before(w, empty, disk, logs') == Before(w, empty, s.disk, logs)
      && LogOf(logs', Last(disk)) == LogOf(logs, Last(s.disk))
  {
    var temp, base := s.pc.temp, s.pc.base;
    var disk', name := MarkHistory(temp).(dirty := false), BaseFile(temp.baseSeq);
    PersistBaseManifest(s.disk, s.am, s.fd, temp, base);
    NewBaseFresh(s.disk, s.am, s.fd, s.pc);
    logs' := logs[name := base];
    NewFileFiles(w, s.files, Names(s.disk), Names(disk'), s.fd, name, base, s.buf, logs);
    NewBaseData(w, empty, disk', name, s.fd, base, logs);
  }

  lemma PersistBaseFails<Data>(w: World<Data>, empty: Data, s: State<Data>, logs: Logs)
    requires Inv(w, empty, s, logs) && s.pc.Renamed?
    ensures Inv(w, empty, PersistBaseStep(s, false), logs)
  {
    NewBaseFresh(s.disk, s.am, s.fd, s.pc);
    OtherFiles(w, s.files, PersistBaseStep(s, false).files, Names(s.disk), s.fd, s.buf, s.pending, logs);
  }

  lemma SwitchBaseManifest(disk: Manifest, am: Manifest, fd: Name, temp: Manifest, base: seq<Cmd>, pc: Pc)
    requires ManifestOk(disk, am, fd, Committed(temp, base)) && (pc.Idle? || pc.Deleting?)
    ensures ManifestOk(disk, temp, fd, pc)
  {
  }

  lemma SwitchBaseKeeps<Data>(w: World<Data>, empty: Data, s: State<Data>, logs: Logs, gc: bool)
    requires Inv(w, empty, s, logs) && s.pc.Committed?
    ensures Inv(w, empty, SwitchBaseStep(s, gc), logs)
  {
    SwitchBaseManifest(s.disk, s.am, s.fd, s.pc.temp, s.pc.base, SwitchBaseStep(s, gc).pc);
  }

  lemma HistoryShrinks(m: Manifest)
    requires WellFormed(m) && m.history != []
    ensures WellFormed(m.(history := m.history[1..], dirty := true)) && m.history[0] !in Names(m)
  {
  }

  lemma DeleteManifest(disk: Manifest, am: Manifest, fd: Name)
    requires ManifestOk(disk, am, fd, Deleting) && am.history != []
    ensures ManifestOk(disk, am.(history := am.history[1..], dirty := true), fd, Deleting)
    ensures am.history[0] !in Names(disk) && fd in Names(disk)
  {
    HistoryShrinks(am);
    DiskNames(disk, am, fd, Deleting);
  }

  lemma DeleteKeeps<Data>(w: World<Data>, empty: Data, s: State<Data>, logs: Logs)
    requires Inv(w, empty, s, logs) && s.pc.Deleting? && s.am.history != []
    ensures Inv(w, empty, DeleteStep(s), logs)
  {
    DeleteManifest(s.disk, s.am, s.fd);
    OtherFiles(w, s.files, DeleteStep(s).files, Names(s.disk), s.fd, s.buf, s.pending, logs);
  }

  lemma PersistDeletedManifest(disk: Manifest, am: Manifest, fd: Name)
    requires ManifestOk(disk, am, fd, Deleting)
    ensures ManifestOk(Persist(disk, am), am.(dirty := false), fd, Idle)
    ensures Persist(disk, am).incrs == disk.incrs && Persist(disk, am).base == disk.base
  {
    DirtyKeeps(am, false);
  }

  lemma PersistDeletedKeeps<Data>(w: World<Data>, empty: Data, s: State<Data>, logs: Logs, ok: bool)
    requires Inv(w, empty, s, logs) && s.pc.Deleting?
    ensures Inv(w, empty, PersistDeletedStep(s, ok), logs)
  {
    PersistDeletedManifest(s.disk, s.am, s.fd);
    var disk' := PersistDeletedStep(s, ok).disk;
    assert Names(disk') == Names(s.disk) && Earlier(disk') == Earlier(s.disk);
  }
}
