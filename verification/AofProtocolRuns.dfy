/** Safety of the append-only files over whole runs, in bytes: what a restart would load at any moment. */
module AofProtocolRuns {
  import opened Options
  import opened AofFormat
  import opened AofManifest
  import opened AofReplay
  import opened AofFeed
  import opened AofProtocol
  import opened AofProtocolKeeps
  import L = AofLoad
  import R = AofRecovery
  import T = AofTruncate

  // ----- single steps

  /** How one step changes what a restart replays last, and the buffer: a feed appends its commands to both, a
      new INCR file starts from the current dataset with nothing buffered, and no other step changes what is
      replayed or adds to the buffer. */
  ghost predicate Evolves<Data(!new)>(
      w: World<Data>, empty: Data, s: State<Data>, logs: Logs, e: Event, s': State<Data>, logs': Logs)
  {
    && s.disk.incrs != [] && s'.disk.incrs != []
    && var before, log := Before(w, empty, s.disk, logs), LogOf(logs, Last(s.disk));
       var before', log' := Before(w, empty, s'.disk, logs'), LogOf(logs', Last(s'.disk));
       if e.Feed? then
         var more := w.fed(s.selected, e.ops);
         before' == before && log' == log + more && s'.buf == s.buf + w.encode(more)
       else if e == PersistIncr(true) then before' == s.data && log' == [] && s'.buf == ""
       else before' == before && log' == log && |s'.buf| <= |s.buf|
  }

  // The step leaves a state with these logs.
  ghost predicate Leads<Data(!new)>(w: World<Data>, empty: Data, s: State<Data>, logs: Logs, e: Event, logs': Logs)
    requires s.pending <= |s.buf| && Enabled(w, empty, s, e)
  {
    && Inv(w, empty, Next(w, empty, s, e), logs')
    && Evolves(w, empty, s, logs, e, Next(w, empty, s, e), logs')
  }

  // A step other than a feed or a new INCR file, after which the same files are to be loaded.
  lemma Unmoved<Data(!new)>(w: World<Data>, empty: Data, s: State<Data>, logs: Logs, e: Event, s': State<Data>)
    requires !e.Feed? && e != PersistIncr(true)
    requires s.disk.incrs != [] && s'.disk.incrs == s.disk.incrs && s'.disk.base == s.disk.base
    requires |s'.buf| <= |s.buf|
    ensures Evolves(w, empty, s, logs, e, s', logs)
  {
    assert Names(s'.disk) == Names(s.disk);
  }

  lemma OpenClosed<Data(!new)>(w: World<Data>, empty: Data, s: State<Data>, logs: Logs)
    requires Inv(w, empty, s, logs) && !s.pc.Persisted?
    ensures s.fd == Last(s.disk) && s.fd in logs && w.closed(logs[s.fd])
    ensures s.selected.Some? ==> w.endDb(logs[s.fd]) == s.selected.value
  {
    DiskNames(s.disk, s.am, s.fd, s.pc);
    assert HoldsLog(w, s.files, s.fd, Tail(s.buf, s.pending, s.fd, s.fd), logs);
  }

  lemma FeedStepKeeps<Data(!new)>(w: World<Data>, empty: Data, s: State<Data>, logs: Logs, ops: seq<Op>)
      returns (logs': Logs)
    requires Lawful(w) && Inv(w, empty, s, logs) && Enabled(w, empty, s, Feed(ops))
    ensures Leads(w, empty, s, logs, Feed(ops), logs')
  {
    OpenClosed(w, empty, s, logs);
    assert FeedLaws(w, logs[s.fd], s.selected, Before(w, empty, s.disk, logs), ops);
    logs' := FeedKeeps(w, empty, s, logs, ops);
  }

  // Steps of the rewrite up to the new file.
  lemma OpenStepKeeps<Data(!new)>(w: World<Data>, empty: Data, s: State<Data>, logs: Logs, e: Event)
    requires Inv(w, empty, s, logs) && Enabled(w, empty, s, e)
    requires e.BeginRewrite? || e.OpenIncr? || e.SwitchIncr?
    ensures Leads(w, empty, s, logs, e, logs)
  {
    match e {
      case BeginRewrite => BeginKeeps(w, empty, s, logs);
      case OpenIncr(ok) => OpenKeeps(w, empty, s, logs, ok);
      case SwitchIncr => SwitchIncrKeeps(w, empty, s, logs);
    }
    Unmoved(w, empty, s, logs, e, Next(w, empty, s, e));
  }

  // The new manifest, and the fork.
  lemma ForkStepKeeps<Data(!new)>(w: World<Data>, empty: Data, s: State<Data>, logs: Logs, e: Event)
      returns (logs': Logs)
    requires Lawful(w) && Inv(w, empty, s, logs) && Enabled(w, empty, s, e) && Flushed(s, e)
    requires e.PersistIncr? || e.Fork?
    ensures Leads(w, empty, s, logs, e, logs')
  {
    logs' := logs;
    match e {
      case PersistIncr(ok) =>
        if ok {
          logs' := PersistIncrKeeps(w, empty, s, logs);
        } else {
          PersistIncrFails(w, empty, s, logs);
        }
      case Fork(ok) => ForkKeeps(w, empty, s, logs, ok);
    }
  }

  // Steps of the child, and the end of the rewrite up to the new manifest.
  lemma ChildStepKeeps<Data(!new)>(w: World<Data>, empty: Data, s: State<Data>, logs: Logs, e: Event)
    requires Inv(w, empty, s, logs) && Enabled(w, empty, s, e)
    requires e.ChildWrites? || e.ChildFails? || e.ChildSucceeds? || e.RenameBase?
    ensures Leads(w, empty, s, logs, e, logs)
  {
    match e {
      case ChildWrites(bytes) => ChildWritesKeeps(w, empty, s, logs, bytes);
      case ChildFails => ChildFailsKeeps(w, empty, s, logs);
      case ChildSucceeds(base) => ChildSucceedsKeeps(w, empty, s, logs, base);
      case RenameBase(ok) =>
        if ok {
          RenameKeeps(w, empty, s, logs);
        } else {
          RenameFails(w, empty, s, logs);
        }
    }
    Unmoved(w, empty, s, logs, e, Next(w, empty, s, e));
  }

  // The new manifest.
  lemma CommitStepKeeps<Data(!new)>(w: World<Data>, empty: Data, s: State<Data>, logs: Logs, ok: bool)
      returns (logs': Logs)
    requires Inv(w, empty, s, logs) && Enabled(w, empty, s, PersistBase(ok))
    ensures Leads(w, empty, s, logs, PersistBase(ok), logs')
  {
    logs' := logs;
    if ok {
      logs' := PersistBaseKeeps(w, empty, s, logs);
    } else {
      PersistBaseFails(w, empty, s, logs);
    }
  }

  // From the new manifest to the end of the deletions.
  lemma SwitchBaseLeads<Data(!new)>(w: World<Data>, empty: Data, s: State<Data>, logs: Logs, gc: bool)
    requires Inv(w, empty, s, logs) && Enabled(w, empty, s, SwitchBase(gc))
    ensures Leads(w, empty, s, logs, SwitchBase(gc), logs)
  {
    SwitchBaseKeeps(w, empty, s, logs, gc);
    Unmoved(w, empty, s, logs, SwitchBase(gc), SwitchBaseStep(s, gc));
  }

  lemma DeleteLeads<Data(!new)>(w: World<Data>, empty: Data, s: State<Data>, logs: Logs)
    requires Inv(w, empty, s, logs) && Enabled(w, empty, s, DeleteOne)
    ensures Leads(w, empty, s, logs, DeleteOne, logs)
  {
    DeleteKeeps(w, empty, s, logs);
    Unmoved(w, empty, s, logs, DeleteOne, DeleteStep(s));
  }

  lemma PersistDeletedLeads<Data(!new)>(w: World<Data>, empty: Data, s: State<Data>, logs: Logs, ok: bool)
    requires Inv(w, empty, s, logs) && Enabled(w, empty, s, PersistDeleted(ok))
    ensures Leads(w, empty, s, logs, PersistDeleted(ok), logs)
  {
    PersistDeletedKeeps(w, empty, s, logs, ok);
    Unmoved(w, empty, s, logs, PersistDeleted(ok), PersistDeletedStep(s, ok));
  }

  lemma FlushStepKeeps<Data(!new)>(w: World<Data>, empty: Data, s: State<Data>, logs: Logs, e: Event)
    requires Inv(w, empty, s, logs) && Enabled(w, empty, s, e)
    requires e.Write? || e.Keep? || e.TakeBack?
    ensures Leads(w, empty, s, logs, e, logs)
  {
    match e {
      case Write(n) => WriteKeeps(w, empty, s, logs, n);
      case Keep => KeepKeeps(w, empty, s, logs);
      case TakeBack => TakeBackKeeps(w, empty, s, logs);
    }
    Unmoved(w, empty, s, logs, e, Next(w, empty, s, e));
  }

  lemma StepKeeps<Data(!new)>(w: World<Data>, empty: Data, s: State<Data>, logs: Logs, e: Event) returns (logs': Logs)
    requires Lawful(w) && Inv(w, empty, s, logs) && Enabled(w, empty, s, e) && Flushed(s, e)
    ensures Leads(w, empty, s, logs, e, logs')
  {
    logs' := logs;
    match e {
      case Feed(ops) => logs' := FeedStepKeeps(w, empty, s, logs, ops);
      case Write(_) => FlushStepKeeps(w, empty, s, logs, e);
      case Keep => FlushStepKeeps(w, empty, s, logs, e);
      case TakeBack => FlushStepKeeps(w, empty, s, logs, e);
      case BeginRewrite => OpenStepKeeps(w, empty, s, logs, e);
      case OpenIncr(_) => OpenStepKeeps(w, empty, s, logs, e);
      case PersistIncr(_) => logs' := ForkStepKeeps(w, empty, s, logs, e);
      case SwitchIncr => OpenStepKeeps(w, empty, s, logs, e);
      case Fork(_) => logs' := ForkStepKeeps(w, empty, s, logs, e);
      case PersistBase(ok) => logs' := CommitStepKeeps(w, empty, s, logs, ok);
      case SwitchBase(gc) => SwitchBaseLeads(w, empty, s, logs, gc);
      case DeleteOne => DeleteLeads(w, empty, s, logs);
      case PersistDeleted(ok) => PersistDeletedLeads(w, empty, s, logs, ok);
      case _ => ChildStepKeeps(w, empty, s, logs, e);
    }
  }

  // ----- whole runs

  lemma StartsWell<Data(!new)>(w: World<Data>, empty: Data) returns (logs: Logs)
    requires Lawful(w)
    ensures Inv(w, empty, Initial(empty), logs) && LogOf(logs, IncrFile(1)) == []
  {
    logs := map[BaseFile(1) := [], IncrFile(1) := []];
    var s := Initial(empty);
    assert Earlier(s.disk) == [BaseFile(1)];
    assert LogsOf(logs, Earlier(s.disk)) == [] + [[]];
    ReplayLast(w.run, empty, [], []);
  }

  lemma OneStep<Data(!new)>(w: World<Data>, empty: Data, s: State<Data>, e: Event, s': State<Data>, logs: Logs)
      returns (logs': Logs)
    requires Lawful(w) && IsStep(w, empty, s, e, s') && Flushed(s, e) && Inv(w, empty, s, logs)
    ensures Inv(w, empty, s', logs') && Evolves(w, empty, s, logs, e, s', logs')
  {
    logs' := StepKeeps(w, empty, s, logs, e);
  }

  /** From a state that has logs for its files, every later state has. */
  lemma {:induction false} TraceKeeps<Data(!new)>(
      w: World<Data>, empty: Data, states: seq<State<Data>>, es: seq<Event>, first: Logs, k: nat) returns (logs: Logs)
    requires Lawful(w) && IsTrace(w, empty, states, es) && FlushesFirst(states, es) && k < |states|
    requires Inv(w, empty, states[0], first)
    ensures Inv(w, empty, states[k], logs)
    decreases k
  {
    if k == 0 {
      logs := first;
    } else {
      var before := TraceKeeps(w, empty, states, es, first, k - 1);
      assert IsStep(w, empty, states[k - 1], es[k - 1], states[k]) && Flushed(states[k - 1], es[k - 1]);
      logs := OneStep(w, empty, states[k - 1], es[k - 1], states[k], before);
    }
  }

  /** Every state of every run has logs for its files. */
  lemma RunKeeps<Data(!new)>(w: World<Data>, empty: Data, states: seq<State<Data>>, es: seq<Event>, k: nat)
      returns (logs: Logs)
    requires Lawful(w) && IsRun(w, empty, states, es) && FlushesFirst(states, es) && k < |states|
    ensures Inv(w, empty, states[k], logs)
  {
    var first := StartsWell(w, empty);
    logs := TraceKeeps(w, empty, states, es, first, k);
  }

  // ----- what is surely on disk

  /** The first so many commands of the last log are in the file, whatever waits in the buffer, and with any
      more of them the file leads to one of these datasets. */
  ghost predicate Durable<Data(!new)>(
      w: World<Data>, before: Data, log: seq<Cmd>, buf: Bytes, sure: nat, datas: set<Data>)
  {
    && sure <= |log| && |w.encode(log[..sure])| + |buf| <= |w.encode(log)|
    && forall n :: sure <= n <= |log| ==> w.run(before, log[..n]) in datas
  }

  lemma EmptyDurable<Data(!new)>(w: World<Data>, before: Data, log: seq<Cmd>, datas: set<Data>)
    requires w.run(before, log) in datas
    ensures Durable(w, before, log, "", |log|, datas)
  {
    assert log[..|log|] == log;
  }

  lemma FedDatas<Data(!new)>(
      w: World<Data>, before: Data, log: seq<Cmd>, selected: Option<nat>, ops: seq<Op>, n: nat, log': seq<Cmd>,
      datas: set<Data>)
    requires ops != [] && FeedLaws(w, log, selected, before, ops) && log' == log + w.fed(selected, ops)
    requires |log| < n <= |log'| && w.run(before, log) in datas && w.run(before, log') in datas
    ensures w.run(before, log'[..n]) in datas
  {
    if n == |log'| {
      assert log'[..n] == log';
    } else {
      assert log'[..n] == log + w.fed(selected, ops)[..n - |log|];
    }
  }

  lemma FeedDurable<Data(!new)>(
      w: World<Data>, before: Data, log: seq<Cmd>, buf: Bytes, sure: nat, datas: set<Data>,
      selected: Option<nat>, ops: seq<Op>, log': seq<Cmd>)
    requires Durable(w, before, log, buf, sure, datas) && ops != [] && FeedLaws(w, log, selected, before, ops)
    requires log' == log + w.fed(selected, ops) && w.run(before, log') in datas
    ensures Durable(w, before, log', buf + w.encode(w.fed(selected, ops)), sure, datas)
  {
    assert log[..|log|] == log && log'[..sure] == log[..sure];
    forall n | sure <= n <= |log'|
      ensures w.run(before, log'[..n]) in datas
    {
      if n <= |log| {
        assert log'[..n] == log[..n];
      } else {
        FedDatas(w, before, log, selected, ops, n, log', datas);
      }
    }
  }

  ghost predicate StateDurable<Data(!new)>(
      w: World<Data>, empty: Data, s: State<Data>, logs: Logs, sure: nat, datas: set<Data>)
  {
    && s.disk.incrs != []
    && Durable(w, Before(w, empty, s.disk, logs), LogOf(logs, Last(s.disk)), s.buf, sure, datas)
  }

  lemma StepDurable<Data(!new)>(
      w: World<Data>, empty: Data, s: State<Data>, logs: Logs, e: Event, s': State<Data>, logs': Logs, sure: nat,
      datas: set<Data>)
      returns (sure': nat)
    requires Lawful(w) && Inv(w, empty, s, logs) && IsStep(w, empty, s, e, s')
    requires Inv(w, empty, s', logs') && Evolves(w, empty, s, logs, e, s', logs')
    requires StateDurable(w, empty, s, logs, sure, datas) && s'.data in datas
    ensures StateDurable(w, empty, s', logs', sure', datas)
  {
    sure' := sure;
    if e.Feed? {
      OpenClosed(w, empty, s, logs);
      FeedDurable(w, Before(w, empty, s.disk, logs), logs[s.fd], s.buf, sure, datas, s.selected, e.ops,
        LogOf(logs', Last(s'.disk)));
    } else if e == PersistIncr(true) {
      sure' := 0;
      EmptyDurable(w, Before(w, empty, s'.disk, logs'), [], datas);
    }
  }

  /** The files hold logs, of which so much is surely on disk. */
  ghost predicate DurableAt<Data(!new)>(w: World<Data>, empty: Data, s: State<Data>, datas: set<Data>) {
    exists logs, sure :: Inv(w, empty, s, logs) && StateDurable(w, empty, s, logs, sure, datas)
  }

  lemma StartDurable<Data(!new)>(w: World<Data>, empty: Data, s: State<Data>, logs: Logs, datas: set<Data>)
    requires Inv(w, empty, s, logs) && s.buf == "" && s.data in datas
    ensures DurableAt(w, empty, s, datas)
  {
    EmptyDurable(w, Before(w, empty, s.disk, logs), LogOf(logs, Last(s.disk)), datas);
    assert StateDurable(w, empty, s, logs, |LogOf(logs, Last(s.disk))|, datas);
  }

  lemma NextDurable<Data(!new)>(
      w: World<Data>, empty: Data, s: State<Data>, e: Event, s': State<Data>, datas: set<Data>)
    requires Lawful(w) && IsStep(w, empty, s, e, s') && Flushed(s, e)
    requires DurableAt(w, empty, s, datas) && s'.data in datas
    ensures DurableAt(w, empty, s', datas)
  {
    var logs, sure :| Inv(w, empty, s, logs) && StateDurable(w, empty, s, logs, sure, datas);
    var logs' := OneStep(w, empty, s, e, s', logs);
    var sure' := StepDurable(w, empty, s, logs, e, s', logs', sure, datas);
  }

  /** From a moment with an empty buffer on, what the file surely holds leads to a dataset of that moment or a
      later one. */
  lemma {:induction false} StaysDurable<Data(!new)>(
      w: World<Data>, empty: Data, states: seq<State<Data>>, es: seq<Event>, i: nat, k: nat, datas: set<Data>)
    requires Lawful(w) && IsTrace(w, empty, states, es) && FlushesFirst(states, es) && i <= k < |states|
    requires DurableAt(w, empty, states[i], datas)
    requires forall j :: i <= j <= k ==> states[j].data in datas
    ensures DurableAt(w, empty, states[k], datas)
    decreases k
  {
    if i < k {
      StaysDurable(w, empty, states, es, i, k - 1, datas);
      assert IsStep(w, empty, states[k - 1], es[k - 1], states[k]) && Flushed(states[k - 1], es[k - 1]);
      NextDurable(w, empty, states[k - 1], es[k - 1], states[k], datas);
    }
  }

  /** The last moment up to k at which nothing waited in the buffer. */
  ghost function LastEmpty<Data>(states: seq<State<Data>>, k: nat): (r: nat)
    requires k < |states| && states[0].buf == ""
    ensures r <= k && states[r].buf == "" && forall i :: r < i <= k ==> states[i].buf != ""
  {
    if states[k].buf == "" then k else LastEmpty(states, k - 1)
  }

  // The datasets from moment i to moment k.
  ghost function Datas<Data>(states: seq<State<Data>>, i: nat, k: nat): (r: set<Data>)
    requires i <= k < |states|
    ensures forall j :: i <= j <= k ==> states[j].data in r
    ensures forall d :: d in r ==> exists j :: i <= j <= k && states[j].data == d
  {
    set j | i <= j <= k :: states[j].data
  }

  // ----- commands as the other modules define them

  ghost function EndDb(db: nat, cmds: seq<Cmd>): nat
    decreases |cmds|
  {
    if cmds == [] then db
    else EndDb(if IsSelect(cmds[0]) && ParseInt(cmds[0][1]) >= 0 then ParseInt(cmds[0][1]) else db, cmds[1..])
  }

  ghost function TheWorld<Data(!new)>(exec: Executor<Data>, lookup: L.Lookup): World<Data> {
    World(
      (d: Data, ops: seq<Op>) => ExecOps(exec, d, ops), OfLog(FileRun(exec), lookup),
      (log: seq<Cmd>) => EndDb(0, R.Meaning(lookup, log)), Fed, Encode,
      (ops: seq<Op>) => ClientOps(lookup, ops), (log: seq<Cmd>) => Closed(lookup, log))
  }

  lemma {:induction false} RunDb<Data>(exec: Executor<Data>, p: Pos<Data>, cmds: seq<Cmd>)
    ensures RunCmds(exec, p, cmds).db == EndDb(p.db, cmds)
    decreases |cmds|
  {
    if cmds != [] {
      RunDb(exec, Apply(exec, p, cmds[0]), cmds[1..]);
    }
  }

  /** What a feed appends runs each command against its own database, from whatever dataset the file is
      replayed. */
  lemma FedFile<Data>(exec: Executor<Data>, d: Data, cmds: seq<Cmd>, selected: Option<nat>, ops: seq<Op>)
    requires forall i :: 0 <= i < |ops| ==> !IsSelect(ops[i].cmd)
    requires ops != [] && (selected.Some? ==> EndDb(0, cmds) == selected.value)
    ensures var cmds' := cmds + FedAll(selected, ops);
      && RunFile(exec, d, cmds') == ExecOps(exec, RunFile(exec, d, cmds), ops)
      && EndDb(0, cmds') == ops[|ops| - 1].db
  {
    var p, more := Pos(d, 0), FedAll(selected, ops);
    RunAppended(exec, p, cmds, more);
    RunDb(exec, p, cmds);
    FedAllRuns(exec, RunCmds(exec, p, cmds), selected, ops);
    RunDb(exec, p, cmds + more);
  }

  lemma SelectOnly<Data>(exec: Executor<Data>, d: Data, cmds: seq<Cmd>, more: seq<Cmd>, db: nat)
    requires more == [] || more == [SelectCmd(db)]
    ensures RunFile(exec, d, cmds + more) == RunFile(exec, d, cmds)
  {
    var p := RunCmds(exec, Pos(d, 0), cmds);
    RunAppended(exec, Pos(d, 0), cmds, more);
    if more != [] {
      SelectApplied(exec, p, db);
      assert [SelectCmd(db)][1..] == [];
    }
  }

  /** A torn feed, be it a command or a transaction, does nothing. */
  lemma TornFeed<Data>(
      exec: Executor<Data>, lookup: L.Lookup, d: Data, log: seq<Cmd>, selected: Option<nat>, ops: seq<Op>, k: nat)
    requires KnowsTransactions(lookup) && ClientOps(lookup, ops) && Closed(lookup, log)
    requires k < |Fed(selected, ops)|
    ensures OfLog(FileRun(exec), lookup)(d, log + Fed(selected, ops)[..k]) == OfLog(FileRun(exec), lookup)(d, log)
  {
    var torn := Fed(selected, ops)[..k];
    T.MeaningAppend(lookup, log, torn);
    FedTorn(lookup, selected, ops, k);
    SelectOnly(exec, d, R.Meaning(lookup, log), R.Meaning(lookup, torn), ops[0].db);
  }

  lemma FedCloses(lookup: L.Lookup, log: seq<Cmd>, selected: Option<nat>, ops: seq<Op>)
    requires KnowsTransactions(lookup) && ClientOps(lookup, ops) && Closed(lookup, log)
    ensures Closed(lookup, log + Fed(selected, ops))
    ensures R.Meaning(lookup, log + Fed(selected, ops)) == R.Meaning(lookup, log) + FedAll(selected, ops)
  {
    FedMeans(lookup, selected, ops);
    T.MeaningAppend(lookup, log, Fed(selected, ops));
    T.OpenAppend(lookup, log, Fed(selected, ops));
    T.NotNestedAppend(lookup, log, Fed(selected, ops));
  }

  lemma FedLawful<Data(!new)>(
      exec: Executor<Data>, lookup: L.Lookup, log: seq<Cmd>, selected: Option<nat>, d: Data, ops: seq<Op>)
    requires KnowsTransactions(lookup) && ClientOps(lookup, ops) && Closed(lookup, log)
    requires selected.Some? ==> EndDb(0, R.Meaning(lookup, log)) == selected.value
    ensures FeedLaws(TheWorld(exec, lookup), log, selected, d, ops)
  {
    var more := Fed(selected, ops);
    FedCloses(lookup, log, selected, ops);
    T.EncodeAppend(log, more);
    FedFile(exec, d, R.Meaning(lookup, log), selected, ops);
    forall k | 0 <= k < |more|
      ensures TheWorld(exec, lookup).run(d, log + more[..k]) == TheWorld(exec, lookup).run(d, log)
    {
      TornFeed(exec, lookup, d, log, selected, ops, k);
    }
  }

  /** Commands with their transactions obey the laws of the protocol. */
  lemma WorldLawful<Data(!new)>(exec: Executor<Data>, lookup: L.Lookup)
    requires KnowsTransactions(lookup)
    ensures Lawful(TheWorld(exec, lookup))
  {
    var w := TheWorld(exec, lookup);
    forall log: seq<Cmd>, selected: Option<nat>, d: Data, ops: seq<Op>
        | ops != [] && w.client(ops) && w.closed(log) && (selected.Some? ==> w.endDb(log) == selected.value)
      ensures FeedLaws(w, log, selected, d, ops)
    {
      FedLawful(exec, lookup, log, selected, d, ops);
    }
  }

  // ----- in bytes

  /** What a restart finds. */
  ghost function OnDisk<Data>(s: State<Data>): (r: seq<Bytes>)
    ensures |r| == |Names(s.disk)| && forall i :: 0 <= i < |r| ==> r[i] == Contents(s.files, Names(s.disk)[i])
  {
    seq(|Names(s.disk)|, i requires 0 <= i < |Names(s.disk)| => Contents(s.files, Names(s.disk)[i]))
  }

  /** The same with aof_buf written out after the open file. */
  ghost function WithBuffer<Data>(s: State<Data>): (r: seq<Bytes>)
    requires s.pending <= |s.buf|
    ensures |r| == |Names(s.disk)|
    ensures forall i :: 0 <= i < |r| ==>
      r[i] == Contents(s.files, Names(s.disk)[i]) + Tail(s.buf, s.pending, s.fd, Names(s.disk)[i])
  {
    seq(|Names(s.disk)|, i requires 0 <= i < |Names(s.disk)| =>
      Contents(s.files, Names(s.disk)[i]) + Tail(s.buf, s.pending, s.fd, Names(s.disk)[i]))
  }

  lemma NamesReplayed<Data>(w: World<Data>, empty: Data, m: Manifest, logs: Logs)
    requires m.incrs != []
    ensures Replay(w.run, empty, LogsOf(logs, Names(m))) == w.run(Before(w, empty, m, logs), LogOf(logs, Last(m)))
  {
    NamesEnd(m);
    assert LogsOf(logs, Names(m)) == LogsOf(logs, Earlier(m)) + [LogOf(logs, Last(m))];
    ReplayLast(w.run, empty, LogsOf(logs, Earlier(m)), LogOf(logs, Last(m)));
  }

  lemma DataReplayed<Data(!new)>(w: World<Data>, empty: Data, s: State<Data>, logs: Logs)
    requires Inv(w, empty, s, logs)
    ensures Replay(w.run, empty, LogsOf(logs, Names(s.disk))) == s.data
  {
    NamesReplayed(w, empty, s.disk, logs);
  }

  /** With the buffer written out, the files to load give the current dataset. */
  lemma WithBufferLoads<Data(!new)>(
      exec: Executor<Data>, lookup: L.Lookup, tolerant: bool, empty: Data, s: State<Data>, logs: Logs)
    requires Inv(TheWorld(exec, lookup), empty, s, logs)
    ensures LoadFiles(FileRun(exec), lookup, tolerant, empty, WithBuffer(s)) == Some(s.data)
  {
    var names := Names(s.disk);
    forall i | 0 <= i < |names|
      ensures Yields(lookup, tolerant, WithBuffer(s)[i], LogsOf(logs, names)[i], i + 1 < |names|)
    {
      assert HoldsLog(TheWorld(exec, lookup), s.files, names[i], Tail(s.buf, s.pending, s.fd, names[i]), logs);
      WholeFileLoads(lookup, tolerant, logs[names[i]]);
    }
    FilesLoad(FileRun(exec), lookup, tolerant, empty, WithBuffer(s), LogsOf(logs, names));
    DataReplayed(TheWorld(exec, lookup), empty, s, logs);
  }

  /** At every moment of every run, transactions included, loading the files that the manifest on disk
      names, followed by the buffer, gives the current dataset. */
  lemma NothingLost<Data(!new)>(
      exec: Executor<Data>, lookup: L.Lookup, tolerant: bool, empty: Data,
      states: seq<State<Data>>, es: seq<Event>, k: nat)
    requires KnowsTransactions(lookup)
    requires IsRun(TheWorld(exec, lookup), empty, states, es) && FlushesFirst(states, es) && k < |states|
    ensures states[k].pending <= |states[k].buf|
    ensures LoadFiles(FileRun(exec), lookup, tolerant, empty, WithBuffer(states[k])) == Some(states[k].data)
  {
    WorldLawful(exec, lookup);
    var logs := RunKeeps(TheWorld(exec, lookup), empty, states, es, k);
    WithBufferLoads(exec, lookup, tolerant, empty, states[k], logs);
  }

  // The file that was open when the process stopped holds all of its log but what is in the buffer; the others
  // hold all of theirs.
  lemma DiskFile<Data(!new)>(w: World<Data>, empty: Data, s: State<Data>, logs: Logs, i: nat) returns (m: nat)
    requires Inv(w, empty, s, logs) && i < |Names(s.disk)|
    ensures var log := LogOf(logs, Names(s.disk)[i]);
      && m <= |w.encode(log)| <= m + |s.buf| && w.closed(log) && OnDisk(s)[i] == w.encode(log)[..m]
      && (Names(s.disk)[i] != s.fd ==> m == |w.encode(log)|)
  {
    var name := Names(s.disk)[i];
    assert HoldsLog(w, s.files, name, Tail(s.buf, s.pending, s.fd, name), logs);
    m := |s.files[name]|;
    assert s.files[name] == w.encode(logs[name])[..m];
  }

  // Commands that end within the first m bytes are whole there.
  lemma {:induction false} WholeAtLeast(log: seq<Cmd>, sure: nat, m: nat)
    requires sure <= |log| && |Encode(log[..sure])| <= m
    ensures sure <= R.Whole(log, m)
    decreases |log|
  {
    if sure > 0 {
      assert log[..sure][1..] == log[1..][..sure - 1];
      WholeAtLeast(log[1..], sure - 1, m - R.Size(log[0]));
    }
  }

  // How many commands of the last log are whole on disk.
  lemma LastPart<Data(!new)>(
      exec: Executor<Data>, lookup: L.Lookup, empty: Data, s: State<Data>, logs: Logs, sure: nat)
      returns (n: nat)
    requires Inv(TheWorld(exec, lookup), empty, s, logs)
    requires var log := LogOf(logs, Last(s.disk));
      sure <= |log| && |Encode(log[..sure])| + |s.buf| <= |Encode(log)|
    ensures var log := LogOf(logs, Last(s.disk));
      && sure <= n <= |log| && Yields(lookup, true, OnDisk(s)[|Names(s.disk)| - 1], log[..n], false)
  {
    NamesEnd(s.disk);
    var log := LogOf(logs, Last(s.disk));
    var m := DiskFile(TheWorld(exec, lookup), empty, s, logs, |Names(s.disk)| - 1);
    CutFileLoads(lookup, log, m);
    n := R.Whole(log, m);
    WholeAtLeast(log, sure, m);
  }

  lemma EarlierWhole<Data(!new)>(
      exec: Executor<Data>, lookup: L.Lookup, empty: Data, s: State<Data>, logs: Logs, i: nat)
    requires Inv(TheWorld(exec, lookup), empty, s, logs) && i + 1 < |Names(s.disk)|
    ensures Yields(lookup, true, OnDisk(s)[i], LogOf(logs, Earlier(s.disk)[i]), true)
  {
    var m := DiskFile(TheWorld(exec, lookup), empty, s, logs, i);
    EarlierName(s.disk, s.am, s.fd, s.pc, i);
    PartIsWhole(lookup, LogOf(logs, Names(s.disk)[i]), m, OnDisk(s)[i]);
  }

  // Only the last file can be the open one.
  lemma EarlierName(disk: Manifest, am: Manifest, fd: Name, pc: Pc, i: nat)
    requires ManifestOk(disk, am, fd, pc) && i + 1 < |Names(disk)|
    ensures Earlier(disk)[i] == Names(disk)[i] && Names(disk)[i] != Last(disk)
    ensures pc.Persisted? || Names(disk)[i] != fd
  {
    DiskNames(disk, am, fd, pc);
  }

  lemma PartIsWhole(lookup: L.Lookup, log: seq<Cmd>, m: nat, file: Bytes)
    requires Closed(lookup, log) && m == |Encode(log)| && file == Encode(log)[..m]
    ensures Yields(lookup, true, file, log, true)
  {
    assert file == Encode(log);
    WholeFileLoads(lookup, true, log);
  }

  /** What is on disk loads to what some part of the last log makes of the files before it, at least what is
      surely there. */
  lemma OnDiskLoads<Data(!new)>(exec: Executor<Data>, lookup: L.Lookup, empty: Data, s: State<Data>, datas: set<Data>)
      returns (d: Data)
    requires DurableAt(TheWorld(exec, lookup), empty, s, datas)
    ensures d in datas && LoadFiles(FileRun(exec), lookup, true, empty, OnDisk(s)) == Some(d)
  {
    var w := TheWorld(exec, lookup);
    var logs, sure :| Inv(w, empty, s, logs) && StateDurable(w, empty, s, logs, sure, datas);
    var log := LogOf(logs, Last(s.disk));
    var n := LastPart(exec, lookup, empty, s, logs, sure);
    d := w.run(Before(w, empty, s.disk, logs), log[..n]);
    var earlier := LogsOf(logs, Earlier(s.disk));
    forall i | 0 <= i < |earlier|
      ensures Yields(lookup, true, OnDisk(s)[i], earlier[i], true)
    {
      EarlierWhole(exec, lookup, empty, s, logs, i);
    }
    FilesLoadLast(FileRun(exec), lookup, true, empty, OnDisk(s), earlier, log[..n]);
  }

  /** Whenever a server that started with an empty buffer stops, a restart that tolerates a truncated last file
      loads the dataset of some moment, and nothing that was written out by then is lost: the moment is not
      before any at which the buffer was empty. */
  lemma TraceRecovers<Data(!new)>(
      exec: Executor<Data>, lookup: L.Lookup, empty: Data, states: seq<State<Data>>, es: seq<Event>, first: Logs,
      k: nat)
      returns (j: nat)
    requires KnowsTransactions(lookup) && IsTrace(TheWorld(exec, lookup), empty, states, es)
    requires FlushesFirst(states, es) && k < |states|
    requires Inv(TheWorld(exec, lookup), empty, states[0], first) && states[0].buf == ""
    ensures j <= k && forall i :: 0 <= i <= k && states[i].buf == "" ==> i <= j
    ensures LoadFiles(FileRun(exec), lookup, true, empty, OnDisk(states[k])) == Some(states[j].data)
  {
    var w, i := TheWorld(exec, lookup), LastEmpty(states, k);
    var datas := Datas(states, i, k);
    WorldLawful(exec, lookup);
    var start := TraceKeeps(w, empty, states, es, first, i);
    StartDurable(w, empty, states[i], start, datas);
    StaysDurable(w, empty, states, es, i, k, datas);
    var d := OnDiskLoads(exec, lookup, empty, states[k], datas);
    j := Moment(states, i, k, d);
  }

  lemma Moment<Data>(states: seq<State<Data>>, i: nat, k: nat, d: Data) returns (j: nat)
    requires i <= k < |states| && d in Datas(states, i, k)
    ensures i <= j <= k && states[j].data == d
  {
    j :| i <= j <= k && states[j].data == d;
  }

  /** Whenever the process stops, a restart that tolerates a truncated last file loads the dataset that the
      server had at some moment of the run, between transactions, and not before the last moment at which
      nothing waited in the buffer. */
  lemma RestartRecovers<Data(!new)>(
      exec: Executor<Data>, lookup: L.Lookup, empty: Data, states: seq<State<Data>>, es: seq<Event>, k: nat)
      returns (j: nat)
    requires KnowsTransactions(lookup)
    requires IsRun(TheWorld(exec, lookup), empty, states, es) && FlushesFirst(states, es) && k < |states|
    ensures j <= k && forall i :: 0 <= i <= k && states[i].buf == "" ==> i <= j
    ensures LoadFiles(FileRun(exec), lookup, true, empty, OnDisk(states[k])) == Some(states[j].data)
  {
    WorldLawful(exec, lookup);
    var first := StartsWell(TheWorld(exec, lookup), empty);
    j := TraceRecovers(exec, lookup, empty, states, es, first, k);
  }
}
