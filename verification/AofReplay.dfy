/** Replaying append-only files one after the other, each with a client of its own. The dataset and what
    a command does to one of its databases are left open. */
module AofReplay {
  import opened Options
  import opened AofFormat
  import opened AofLoad
  import opened AofRecovery
  import AofParse
  import T = AofTruncate

  type Executor<!Data> = (Data, nat, Cmd) -> Data

  // What replaying the commands of one file makes of a dataset.
  type Runner<!Data> = (Data, seq<Cmd>) -> Data

  /** A dataset and the database that the client has selected. */
  datatype Pos<Data> = Pos(data: Data, db: nat)

  function SelectCmd(db: nat): Cmd {
    ["SELECT", Digits(db)]
  }

  predicate IsSelect(cmd: Cmd) {
    |cmd| == 2 && cmd[0] == "SELECT"
  }

  function Apply<Data>(exec: Executor<Data>, p: Pos<Data>, cmd: Cmd): Pos<Data> {
    if IsSelect(cmd) then
      var j := ParseInt(cmd[1]);
      if j >= 0 then p.(db := j) else p
    else p.(data := exec(p.data, p.db, cmd))
  }

  function RunCmds<Data>(exec: Executor<Data>, p: Pos<Data>, cmds: seq<Cmd>): Pos<Data>
    decreases |cmds|
  {
    if cmds == [] then p else RunCmds(exec, Apply(exec, p, cmds[0]), cmds[1..])
  }

  /** A file's client starts in database 0. */
  function RunFile<Data>(exec: Executor<Data>, data: Data, cmds: seq<Cmd>): Data {
    RunCmds(exec, Pos(data, 0), cmds).data
  }

  function FileRun<Data>(exec: Executor<Data>): Runner<Data> {
    (data: Data, cmds: seq<Cmd>) => RunFile(exec, data, cmds)
  }

  function Replay<Data>(run: Runner<Data>, data: Data, logs: seq<seq<Cmd>>): Data
    decreases |logs|
  {
    if logs == [] then data else Replay(run, run(data, logs[0]), logs[1..])
  }

  lemma {:induction false} RunAppended<Data>(exec: Executor<Data>, p: Pos<Data>, a: seq<Cmd>, b: seq<Cmd>)
    ensures RunCmds(exec, p, a + b) == RunCmds(exec, RunCmds(exec, p, a), b)
    decreases |a|
  {
    if a == [] {
      assert a + b == b;
    } else {
      assert (a + b)[1..] == a[1..] + b;
      RunAppended(exec, Apply(exec, p, a[0]), a[1..], b);
    }
  }

  lemma {:induction false} ReplayAppended<Data>(run: Runner<Data>, data: Data, a: seq<seq<Cmd>>, b: seq<seq<Cmd>>)
    ensures Replay(run, data, a + b) == Replay(run, Replay(run, data, a), b)
    decreases |a|
  {
    if a == [] {
      assert a + b == b;
    } else {
      assert (a + b)[1..] == a[1..] + b;
      ReplayAppended(run, run(data, a[0]), a[1..], b);
    }
  }

  lemma ReplayLast<Data>(run: Runner<Data>, data: Data, logs: seq<seq<Cmd>>, last: seq<Cmd>)
    ensures Replay(run, data, logs + [last]) == run(Replay(run, data, logs), last)
  {
    ReplayAppended(run, data, logs, [last]);
    assert [last][1..] == [];
  }

  lemma SelectApplied<Data>(exec: Executor<Data>, p: Pos<Data>, db: nat)
    ensures Apply(exec, p, SelectCmd(db)) == p.(db := db)
  {
    ParseHeader(db, "");
    assert Digits(db) + "" == Digits(db);
  }

  /** A command appended with its SELECT, or without one when the client is already there, runs against
      its own database. */
  lemma FedRuns<Data>(exec: Executor<Data>, p: Pos<Data>, db: nat, cmd: Cmd, select: bool)
    requires !IsSelect(cmd) && (!select ==> p.db == db)
    ensures RunCmds(exec, p, (if select then [SelectCmd(db)] else []) + [cmd]) == Pos(exec(p.data, db, cmd), db)
  {
    assert [cmd][1..] == [];
    assert RunCmds(exec, p.(db := db), [cmd]) == Pos(exec(p.data, db, cmd), db);
    if select {
      SelectApplied(exec, p, db);
      assert ([SelectCmd(db)] + [cmd])[1..] == [cmd];
    } else {
      assert [] + [cmd] == [cmd];
      assert p.(db := db) == p;
    }
  }

  // ----- loading files

  // Commands outside transactions that a file can hold.
  ghost predicate PlainLog(lookup: Lookup, cmds: seq<Cmd>) {
    forall i :: 0 <= i < |cmds| ==> AofParse.Writable(cmds[i]) && lookup(cmds[i]) == Plain
  }

  lemma {:induction false} PlainMeans(lookup: Lookup, cmds: seq<Cmd>)
    requires PlainLog(lookup, cmds)
    ensures Meaning(lookup, cmds) == cmds && !Open(lookup, cmds)
    decreases |cmds|
  {
    if cmds != [] {
      PlainMeans(lookup, cmds[1..]);
      assert [cmds[0]] + cmds[1..] == cmds;
    }
  }

  // A log that a file can hold, with every transaction closed and none inside another.
  ghost predicate Closed(lookup: Lookup, log: seq<Cmd>) {
    Log(lookup, log) && !Open(lookup, log) && T.NotNested(lookup, log)
  }

  lemma PlainCloses(lookup: Lookup, cmds: seq<Cmd>)
    requires PlainLog(lookup, cmds)
    ensures Closed(lookup, cmds) && Meaning(lookup, cmds) == cmds
  {
    PlainMeans(lookup, cmds);
  }

  lemma WholeFileLoads(lookup: Lookup, tolerant: bool, log: seq<Cmd>)
    requires Closed(lookup, log)
    ensures Yields(lookup, tolerant, Encode(log), log, true)
  {
    LoadInvertsEncode(lookup, tolerant, log);
  }

  lemma CutFileLoads(lookup: Lookup, log: seq<Cmd>, m: nat)
    requires Log(lookup, log) && m <= |Encode(log)|
    ensures Yields(lookup, true, Encode(log)[..m], log[..Whole(log, m)], false)
  {
    LoadAnyPrefix(lookup, true, log, m);
    LoadPrefix(lookup, true, log, m, 0, START);
  }

  /** loadAppendOnlyFiles on the contents of the files, in order: only the last one may be cut short. */
  function LoadFiles<Data>(
      run: Runner<Data>, lookup: Lookup, tolerant: bool, data: Data, files: seq<Bytes>): Option<Data>
    decreases |files|
  {
    if files == [] then Some(data)
    else
      var (outcome, st) := Load(lookup, tolerant, files[0], 0, START);
      if outcome == Failed || (outcome.Truncated? && |files| > 1) then None
      else LoadFiles(run, lookup, tolerant, run(data, st.executed), files[1..])
  }

  method LoadAppendOnlyFiles<Data>(run: Runner<Data>, lookup: Lookup, tolerant: bool, empty: Data, files: seq<Bytes>)
      returns (r: Option<Data>)
    ensures r == LoadFiles(run, lookup, tolerant, empty, files)
  {
    var data, i := empty, 0;
    assert files[0..] == files;
    while i < |files|
      invariant 0 <= i <= |files|
      invariant LoadFiles(run, lookup, tolerant, data, files[i..]) == LoadFiles(run, lookup, tolerant, empty, files)
    {
      var outcome, st := LoadSingleAppendOnlyFile(lookup, tolerant, files[i]);
      assert files[i..][1..] == files[i + 1..];
      var lastFile := i + 1 == |files|;
      if outcome.Truncated? && !lastFile {
        outcome := Failed;
      }
      if outcome == Failed {
        return None;
      }
      data := run(data, st.executed);
      i := i + 1;
    }
    return Some(data);
  }

  /** What a log does: the commands that take effect, run. */
  function OfLog<Data>(run: Runner<Data>, lookup: Lookup): Runner<Data> {
    (data: Data, log: seq<Cmd>) => run(data, Meaning(lookup, log))
  }

  /** The loader runs from these bytes exactly what this log means, and to their end when whole is asked
      for. */
  ghost predicate Yields(lookup: Lookup, tolerant: bool, bytes: Bytes, log: seq<Cmd>, whole: bool) {
    var (outcome, st) := Load(lookup, tolerant, bytes, 0, START);
    outcome != Failed && (whole ==> outcome == Loaded) && st.executed == Meaning(lookup, log)
  }

  /** Files of which all but the last load to their end replay their logs in order. */
  lemma {:induction false} FilesLoad<Data>(
      run: Runner<Data>, lookup: Lookup, tolerant: bool, data: Data, files: seq<Bytes>, logs: seq<seq<Cmd>>)
    requires |files| == |logs|
    requires forall i :: 0 <= i < |logs| ==> Yields(lookup, tolerant, files[i], logs[i], i + 1 < |logs|)
    ensures LoadFiles(run, lookup, tolerant, data, files) == Some(Replay(OfLog(run, lookup), data, logs))
    decreases |logs|
  {
    if logs != [] {
      assert Yields(lookup, tolerant, files[0], logs[0], 1 < |logs|);
      forall i | 0 <= i < |logs| - 1
        ensures Yields(lookup, tolerant, files[1..][i], logs[1..][i], i + 1 < |logs| - 1)
      {
        assert Yields(lookup, tolerant, files[i + 1], logs[i + 1], i + 2 < |logs|);
      }
      FilesLoad(run, lookup, tolerant, OfLog(run, lookup)(data, logs[0]), files[1..], logs[1..]);
    }
  }

  /** The same when the last file may be cut. */
  lemma FilesLoadLast<Data>(
      run: Runner<Data>, lookup: Lookup, tolerant: bool, data: Data, files: seq<Bytes>, logs: seq<seq<Cmd>>,
      last: seq<Cmd>)
    requires |files| == |logs| + 1 && Yields(lookup, tolerant, files[|logs|], last, false)
    requires forall i :: 0 <= i < |logs| ==> Yields(lookup, tolerant, files[i], logs[i], true)
    ensures LoadFiles(run, lookup, tolerant, data, files)
         == Some(OfLog(run, lookup)(Replay(OfLog(run, lookup), data, logs), last))
  {
    FilesLoad(run, lookup, tolerant, data, files, logs + [last]);
    ReplayLast(OfLog(run, lookup), data, logs, last);
  }
}
