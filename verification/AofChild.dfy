/** What a rewriting child writes is a BASE file that the append-only file protocol can take over. */
module AofChild {
  import opened Options
  import opened AofFormat
  import opened AofDataset
  import opened AofManifest
  import opened AofRebuild
  import opened AofRewrite
  import opened AofReplay
  import P = AofProtocol
  import W = AofProtocolRuns
  import L = AofLoad
  import AofParse

  /** A command against one of the databases. */
  function ExecIn(dbs: seq<Db>, db: nat, cmd: Cmd): seq<Db> {
    if cmd == [] || db >= |dbs| then dbs else dbs[db := InDb(dbs[db], cmd)]
  }

  /** Replaying a file is executing its commands one after the other, as long as its SELECTs name databases
      that exist. */
  lemma {:induction false} ReplayExecutes(s: Server, cmds: seq<Cmd>)
    requires SelectsWithin(cmds, |s.dbs|) && s.selected < |s.dbs|
    ensures RunCmds(ExecIn, Pos(s.dbs, s.selected), cmds) == Pos(ExecAll(s, cmds).dbs, ExecAll(s, cmds).selected)
    decreases |cmds|
  {
    if cmds != [] {
      OneExecutes(s, cmds[0]);
      ReplayExecutes(Exec(s, cmds[0]), cmds[1..]);
    }
  }

  lemma OneExecutes(s: Server, cmd: Cmd)
    requires s.selected < |s.dbs| && cmd != []
    requires !Local(cmd) ==> |cmd| == 2 && 0 <= ParseInt(cmd[1]) < |s.dbs|
    ensures Apply(ExecIn, Pos(s.dbs, s.selected), cmd) == Pos(Exec(s, cmd).dbs, Exec(s, cmd).selected)
    ensures |Exec(s, cmd).dbs| == |s.dbs| && Exec(s, cmd).selected < |s.dbs|
  {
  }

  /** The command table knows the commands of a rewrite. */
  ghost predicate KnowsRewrite(lookup: L.Lookup) {
    forall cmd: Cmd :: cmd != [] && (cmd[0] == "SELECT" || cmd[0] in KEY_COMMANDS) ==> lookup(cmd) == L.Plain
  }

  lemma RewritePlain(lookup: L.Lookup, dbs: seq<Db>, cmds: seq<Cmd>)
    requires KnowsRewrite(lookup) && Fits(dbs) && forall i :: 0 <= i < |cmds| ==> RewriteCommand(dbs, cmds[i])
    ensures PlainLog(lookup, cmds)
  {
    forall i | 0 <= i < |cmds|
      ensures AofParse.Writable(cmds[i]) && lookup(cmds[i]) == L.Plain
    {
      assert RewriteCommand(dbs, cmds[i]);
      RewriteWritable(dbs, cmds[i]);
    }
  }

  /** The bytes of a rewrite load without complaint and rebuild the dataset. */
  lemma RewriteReloads(lookup: L.Lookup, tolerant: bool, out: seq<Token>, dbs: seq<Db>)
    requires KnowsRewrite(lookup) && Fits(dbs) && Rebuilds(out, dbs)
    ensures var (outcome, st) := L.Load(lookup, tolerant, Written(out), 0, L.START);
      outcome == L.Loaded && ExecAll(EmptyServer(|dbs|), st.executed).dbs == dbs
  {
    var cmds :| RebuildsWith(out, cmds, dbs);
    WrittenLog(cmds);
    RewritePlain(lookup, dbs, cmds);
    PlainCloses(lookup, cmds);
    WholeFileLoads(lookup, tolerant, cmds);
  }

  /** A child whose file holds what a rewrite of its dataset wrote can end well: the step in which it does is
      one that the protocol allows. */
  lemma ChildCanSucceed(lookup: L.Lookup, s: P.State<seq<Db>>, out: seq<Token>, dbs: seq<Db>)
      returns (base: seq<Cmd>)
    requires KnowsRewrite(lookup) && Fits(dbs) && Rebuilds(out, dbs) && dbs != []
    requires s.child == Some(dbs) && s.pc.Idle? && s.pending == 0
    requires TempFile in s.files && s.files[TempFile] == Written(out)
    ensures P.Enabled(W.TheWorld(ExecIn, lookup), EmptyServer(|dbs|).dbs, s, P.ChildSucceeds(base))
  {
    base :| RebuildsWith(out, base, dbs);
    WrittenLog(base);
    RewritePlain(lookup, dbs, base);
    PlainCloses(lookup, base);
    RewriteSelects(dbs, base);
    ReplayExecutes(EmptyServer(|dbs|), base);
  }
}
