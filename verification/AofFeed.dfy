/** What propagatePendingCommands and feedAppendOnlyFile append to the log for the commands of one call: a
    command alone, or a transaction around several, each with the SELECT that it needs. */
module AofFeed {
  import opened Options
  import opened AofFormat
  import opened AofParse
  import opened AofLoad
  import opened AofRecovery
  import opened AofReplay
  import T = AofTruncate

  /** A command that changed this database. */
  datatype Op = Op(db: nat, cmd: Cmd)

  const MULTI: Cmd := ["MULTI"]
  const EXEC: Cmd := ["EXEC"]

  /** The calls of feedAppendOnlyFile: MULTI goes to the database of the first command and EXEC to that of
      the last one, so that no SELECT comes between. */
  function Calls(ops: seq<Op>): seq<Op> {
    if |ops| <= 1 then ops else [Op(ops[0].db, MULTI)] + ops + [Op(ops[|ops| - 1].db, EXEC)]
  }

  /** feedAppendOnlyFile with aof_selected_db as given. */
  function FedOne(selected: Option<nat>, op: Op): seq<Cmd> {
    (if selected != Some(op.db) then [SelectCmd(op.db)] else []) + [op.cmd]
  }

  function FedAll(selected: Option<nat>, calls: seq<Op>): seq<Cmd>
    decreases |calls|
  {
    if calls == [] then [] else FedOne(selected, calls[0]) + FedAll(Some(calls[0].db), calls[1..])
  }

  function Fed(selected: Option<nat>, ops: seq<Op>): seq<Cmd> {
    FedAll(selected, Calls(ops))
  }

  /** What the commands did to the dataset. */
  function ExecOps<Data>(exec: Executor<Data>, data: Data, ops: seq<Op>): Data
    decreases |ops|
  {
    if ops == [] then data else ExecOps(exec, exec(data, ops[0].db, ops[0].cmd), ops[1..])
  }

  /** The command table knows what the server adds to a log. */
  ghost predicate KnowsTransactions(lookup: Lookup) {
    && lookup(MULTI) == Multi && lookup(EXEC) == Exec
    && forall db :: lookup(SelectCmd(db)) == Plain
  }

  // A command that a client can have run: SELECT, MULTI and EXEC are not propagated as such.
  predicate ClientOp(lookup: Lookup, op: Op) {
    op.db <= INT_MAX && Writable(op.cmd) && lookup(op.cmd) == Plain && !IsSelect(op.cmd)
  }

  ghost predicate ClientOps(lookup: Lookup, ops: seq<Op>) {
    ops != [] && forall i :: 0 <= i < |ops| ==> ClientOp(lookup, ops[i])
  }

  // ----- the shape of what is fed

  lemma {:induction false} FedThenSame(selected: Option<nat>, ops: seq<Op>, cmd: Cmd)
    requires ops != []
    ensures FedAll(selected, ops + [Op(ops[|ops| - 1].db, cmd)]) == FedAll(selected, ops) + [cmd]
    decreases |ops|
  {
    var last := Op(ops[|ops| - 1].db, cmd);
    assert (ops + [last])[1..] == ops[1..] + [last];
    if |ops| == 1 {
      assert ops[1..] == [] && [] + [last] == [last] && [last][1..] == [];
      assert FedAll(Some(ops[0].db), [last]) == [cmd] + [];
    } else {
      FedThenSame(Some(ops[0].db), ops[1..], cmd);
    }
  }

  // The database that the log has selected before the i-th call.
  function SelectedAt(selected: Option<nat>, calls: seq<Op>, i: nat): Option<nat>
    requires i <= |calls|
  {
    if i == 0 then selected else Some(calls[i - 1].db)
  }

  // The calls that go to another database than the one before them.
  ghost function Switches(selected: Option<nat>, calls: seq<Op>): set<nat> {
    set i: nat | i < |calls| && SelectedAt(selected, calls, i) != Some(calls[i].db)
  }

  lemma {:induction false} FedThen(selected: Option<nat>, calls: seq<Op>, op: Op)
    ensures FedAll(selected, calls + [op]) ==
      FedAll(selected, calls) + FedOne(SelectedAt(selected, calls, |calls|), op)
    decreases |calls|
  {
    if calls == [] {
      assert calls + [op] == [op] && [op][1..] == [];
    } else {
      assert (calls + [op])[1..] == calls[1..] + [op];
      FedThen(Some(calls[0].db), calls[1..], op);
    }
  }

  lemma SwitchesThen(selected: Option<nat>, calls: seq<Op>, op: Op)
    ensures Switches(selected, calls + [op]) ==
      Switches(selected, calls) + if SelectedAt(selected, calls, |calls|) != Some(op.db) then {|calls|} else {}
  {
    var all := calls + [op];
    assert forall i :: 0 <= i <= |calls| ==> SelectedAt(selected, all, i) == SelectedAt(selected, calls, i);
  }

  /** The log grows by the calls and one SELECT for each change of database, and by nothing else. */
  lemma {:induction false} OneSelectEach(selected: Option<nat>, calls: seq<Op>)
    ensures |FedAll(selected, calls)| == |calls| + |Switches(selected, calls)|
    decreases |calls|
  {
    if calls == [] {
      assert Switches(selected, calls) == {};
    } else {
      var n := |calls| - 1;
      assert calls[..n] + [calls[n]] == calls;
      OneSelectEach(selected, calls[..n]);
      FedThen(selected, calls[..n], calls[n]);
      SwitchesThen(selected, calls[..n], calls[n]);
    }
  }

  /** The SELECT before what is fed, if there is one. */
  function Lead(selected: Option<nat>, db: nat): seq<Cmd> {
    if selected != Some(db) then [SelectCmd(db)] else []
  }

  function Block(body: seq<Cmd>): seq<Cmd> {
    [MULTI] + body + [EXEC]
  }

  lemma FedLead(selected: Option<nat>, ops: seq<Op>)
    requires ops != []
    ensures FedAll(selected, ops) == Lead(selected, ops[0].db) + FedAll(Some(ops[0].db), ops)
  {
  }

  lemma FedCons(selected: Option<nat>, op: Op, more: seq<Op>)
    ensures FedAll(selected, [op] + more) == FedOne(selected, op) + FedAll(Some(op.db), more)
  {
    assert ([op] + more)[1..] == more;
  }

  lemma BlockParts(lead: seq<Cmd>, body: seq<Cmd>)
    ensures (lead + [MULTI]) + (body + [EXEC]) == lead + Block(body)
  {
  }

  lemma FedBlock(selected: Option<nat>, ops: seq<Op>)
    requires |ops| > 1
    ensures Fed(selected, ops) == Lead(selected, ops[0].db) + Block(FedAll(Some(ops[0].db), ops))
  {
    var first, last := Op(ops[0].db, MULTI), Op(ops[|ops| - 1].db, EXEC);
    assert Calls(ops) == [first] + (ops + [last]);
    FedCons(selected, first, ops + [last]);
    FedThenSame(Some(first.db), ops, EXEC);
    BlockParts(Lead(selected, first.db), FedAll(Some(first.db), ops));
  }

  // ----- what it means

  lemma SelectFits(db: nat)
    requires db <= INT_MAX
    ensures Writable(SelectCmd(db))
  {
    assert Pow10(10) == 10_000_000_000;
    DigitsShort(db, 10);
  }

  lemma {:induction false} FedPlain(lookup: Lookup, selected: Option<nat>, ops: seq<Op>)
    requires KnowsTransactions(lookup) && forall i :: 0 <= i < |ops| ==> ClientOp(lookup, ops[i])
    ensures PlainLog(lookup, FedAll(selected, ops))
    decreases |ops|
  {
    if ops != [] {
      SelectFits(ops[0].db);
      FedPlain(lookup, Some(ops[0].db), ops[1..]);
    }
  }

  // The first EXEC is the one that closes the block.
  lemma BlockExec(lookup: Lookup, body: seq<Cmd>, k: nat)
    requires KnowsTransactions(lookup) && PlainLog(lookup, body) && 0 < k <= |Block(body)|
    ensures NextExec(lookup, Block(body)[..k]) == if k == |Block(body)| then k - 1 else k
  {
    var part := Block(body)[..k];
    var e := NextExec(lookup, part);
    assert part[0] == MULTI;
    assert forall i :: 1 <= i < k && i < |body| + 1 ==> part[i] == body[i - 1];
    assert k == |Block(body)| ==> part[k - 1] == EXEC;
  }

  /** A transaction means its commands; until its EXEC is there it means nothing. */
  lemma BlockMeans(lookup: Lookup, body: seq<Cmd>)
    requires KnowsTransactions(lookup) && PlainLog(lookup, body)
    ensures Meaning(lookup, Block(body)) == body && !Open(lookup, Block(body)) && Log(lookup, Block(body))
    ensures forall k :: 0 <= k < |Block(body)| ==> Meaning(lookup, Block(body)[..k]) == []
  {
    var block := Block(body);
    var e := |body| + 1;
    assert block[..|block|] == block && block[0] == MULTI && block[1..e] == body && block[e + 1..] == [];
    BlockExec(lookup, body, |block|);
    assert body + [] == body;
    forall k | 0 < k < |block|
      ensures Meaning(lookup, block[..k]) == []
    {
      BlockExec(lookup, body, k);
      assert block[..k][0] == MULTI;
    }
  }

  lemma BlockNotNested(lookup: Lookup, body: seq<Cmd>)
    requires KnowsTransactions(lookup) && PlainLog(lookup, body)
    ensures T.NotNested(lookup, Block(body))
  {
    var block := Block(body);
    forall i | 0 < i < |block|
      ensures lookup(block[i]) != Multi
    {
      assert block[i] == if i <= |body| then body[i - 1] else EXEC;
    }
    assert block[..0] == [];
  }

  lemma LedBlockMeans(lookup: Lookup, lead: seq<Cmd>, body: seq<Cmd>)
    requires KnowsTransactions(lookup) && PlainLog(lookup, lead) && PlainLog(lookup, body)
    ensures Meaning(lookup, lead + Block(body)) == lead + body && Closed(lookup, lead + Block(body))
  {
    PlainCloses(lookup, lead);
    BlockMeans(lookup, body);
    T.MeaningAppend(lookup, lead, Block(body));
    T.OpenAppend(lookup, lead, Block(body));
    BlockNotNested(lookup, body);
    T.NotNestedAppend(lookup, lead, Block(body));
  }

  lemma LedBlockTorn(lookup: Lookup, lead: seq<Cmd>, body: seq<Cmd>, k: nat)
    requires KnowsTransactions(lookup) && PlainLog(lookup, lead) && PlainLog(lookup, body)
    requires k < |lead + Block(body)|
    ensures Meaning(lookup, (lead + Block(body))[..k]) == if k < |lead| then lead[..k] else lead
  {
    PlainCloses(lookup, lead);
    if k < |lead| {
      assert (lead + Block(body))[..k] == lead[..k];
      PlainCloses(lookup, lead[..k]);
    } else {
      var j := k - |lead|;
      assert (lead + Block(body))[..k] == lead + Block(body)[..j];
      BlockMeans(lookup, body);
      T.MeaningAppend(lookup, lead, Block(body)[..j]);
    }
  }

  lemma LeadPlain(lookup: Lookup, selected: Option<nat>, db: nat)
    requires KnowsTransactions(lookup) && db <= INT_MAX
    ensures PlainLog(lookup, Lead(selected, db))
  {
    SelectFits(db);
  }

  /** What is fed means the commands with their SELECTs, whole. */
  lemma FedMeans(lookup: Lookup, selected: Option<nat>, ops: seq<Op>)
    requires KnowsTransactions(lookup) && ClientOps(lookup, ops)
    ensures Meaning(lookup, Fed(selected, ops)) == FedAll(selected, ops) && Closed(lookup, Fed(selected, ops))
  {
    if |ops| == 1 {
      FedPlain(lookup, selected, ops);
      PlainCloses(lookup, FedAll(selected, ops));
    } else {
      var db := ops[0].db;
      LeadPlain(lookup, selected, db);
      FedPlain(lookup, Some(db), ops);
      FedBlock(selected, ops);
      LedBlockMeans(lookup, Lead(selected, db), FedAll(Some(db), ops));
      FedLead(selected, ops);
    }
  }

  /** What is fed and then torn means nothing, or a SELECT. */
  lemma FedTorn(lookup: Lookup, selected: Option<nat>, ops: seq<Op>, k: nat)
    requires KnowsTransactions(lookup) && ClientOps(lookup, ops) && k < |Fed(selected, ops)|
    ensures var torn := Meaning(lookup, Fed(selected, ops)[..k]); torn == [] || torn == [SelectCmd(ops[0].db)]
  {
    var db := ops[0].db;
    LeadPlain(lookup, selected, db);
    if |ops| == 1 {
      assert ops == [ops[0]] + [];
      FedCons(selected, ops[0], []);
      assert Fed(selected, ops)[..k] == Lead(selected, db)[..k];
      PlainCloses(lookup, Lead(selected, db)[..k]);
    } else {
      FedPlain(lookup, Some(db), ops);
      FedBlock(selected, ops);
      LedBlockTorn(lookup, Lead(selected, db), FedAll(Some(db), ops), k);
    }
  }

  /** The commands with their SELECTs run each against its own database, and leave the client in that of the
      last one. */
  lemma {:induction false} FedAllRuns<Data>(exec: Executor<Data>, p: Pos<Data>, selected: Option<nat>, ops: seq<Op>)
    requires forall i :: 0 <= i < |ops| ==> !IsSelect(ops[i].cmd)
    requires ops != [] && (selected.Some? ==> p.db == selected.value)
    ensures RunCmds(exec, p, FedAll(selected, ops)) == Pos(ExecOps(exec, p.data, ops), ops[|ops| - 1].db)
    decreases |ops|
  {
    var op := ops[0];
    var p1 := Pos(exec(p.data, op.db, op.cmd), op.db);
    FedRuns(exec, p, op.db, op.cmd, selected != Some(op.db));
    RunAppended(exec, p, FedOne(selected, op), FedAll(Some(op.db), ops[1..]));
    if |ops| > 1 {
      FedAllRuns(exec, p1, Some(op.db), ops[1..]);
    }
  }
}
