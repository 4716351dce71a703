/** The functions of aof.c as compositions of the protocol's steps, and why each of them is a path of steps
    that can come one after the other. */
module AofPaths {
  import opened Options
  import opened AofFormat
  import opened AofManifest
  import opened AofReplay
  import opened AofProtocol

  /** Steps that lead from s to s'; clean says that no new INCR file goes into the manifest on disk while bytes
      wait in the buffer. */
  ghost predicate Path<Data(!new)>(
      w: World<Data>, empty: Data, clean: bool, s: State<Data>, es: seq<Event>, s': State<Data>)
    decreases |es|
  {
    if es == [] then s == s'
    else
      && s.pending <= |s.buf| && Enabled(w, empty, s, es[0]) && (clean ==> Flushed(s, es[0]))
      && Path(w, empty, clean, Next(w, empty, s, es[0]), es[1..], s')
  }

  lemma {:induction false} PathAppend<Data(!new)>(
      w: World<Data>, empty: Data, clean: bool, s: State<Data>, a: seq<Event>, s1: State<Data>, b: seq<Event>,
      s2: State<Data>)
    requires Path(w, empty, clean, s, a, s1) && Path(w, empty, clean, s1, b, s2)
    ensures Path(w, empty, clean, s, a + b, s2)
    decreases |a|
  {
    if a == [] {
      assert a + b == b;
    } else {
      assert (a + b)[1..] == a[1..] + b;
      PathAppend(w, empty, clean, Next(w, empty, s, a[0]), a[1..], s1, b, s2);
    }
  }

  lemma OneStepPath<Data(!new)>(w: World<Data>, empty: Data, clean: bool, s: State<Data>, e: Event)
    requires s.pending <= |s.buf| && Enabled(w, empty, s, e) && (clean ==> Flushed(s, e))
    ensures Path(w, empty, clean, s, [e], Next(w, empty, s, e))
  {
    assert [e][1..] == [];
  }

  lemma PathThen<Data(!new)>(
      w: World<Data>, empty: Data, clean: bool, s: State<Data>, a: seq<Event>, s1: State<Data>, e: Event)
    requires Path(w, empty, clean, s, a, s1)
    requires s1.pending <= |s1.buf| && Enabled(w, empty, s1, e) && (clean ==> Flushed(s1, e))
    ensures Path(w, empty, clean, s, a + [e], Next(w, empty, s1, e))
  {
    OneStepPath(w, empty, clean, s1, e);
    PathAppend(w, empty, clean, s, a, s1, [e], Next(w, empty, s1, e));
  }

  /** A run continues along a path. */
  lemma {:induction false} Follow<Data(!new)>(
      w: World<Data>, empty: Data, clean: bool, states: seq<State<Data>>, es: seq<Event>, more: seq<Event>,
      s': State<Data>)
      returns (states': seq<State<Data>>)
    requires IsRun(w, empty, states, es) && Path(w, empty, clean, states[|es|], more, s')
    ensures IsRun(w, empty, states', es + more) && states'[|es + more|] == s'
    ensures clean && FlushesFirst(states, es) ==> FlushesFirst(states', es + more)
    decreases |more|
  {
    if more == [] {
      states' := states;
      assert es + more == es;
    } else {
      var s1 := Next(w, empty, states[|es|], more[0]);
      states' := Follow(w, empty, clean, states + [s1], es + [more[0]], more[1..], s');
      assert es + [more[0]] + more[1..] == es + more;
    }
  }

  // ----- flushing

  /** flushAppendOnlyFile: n bytes get into the file and stay there or are taken back. */
  function FlushSteps<Data>(s: State<Data>, n: nat, takenBack: bool): State<Data>
    requires n <= |s.buf|
  {
    if takenBack && n < |s.buf| then TakeBackStep(WriteStep(s, n)) else KeepStep(WriteStep(s, n))
  }

  // How many bytes have left the buffer for the file in the end.
  function Stayed(n: nat, len: nat, takenBack: bool): nat {
    if takenBack && n < len then 0 else n
  }

  lemma FlushMoves<Data>(s: State<Data>, n: nat, takenBack: bool)
    requires n <= |s.buf| && s.pending == 0
    ensures var k := Stayed(n, |s.buf|, takenBack);
      FlushSteps(s, n, takenBack)
      == s.(files := s.files[s.fd := Contents(s.files, s.fd) + s.buf[..k]], buf := s.buf[k..])
  {
    var was := Contents(s.files, s.fd);
    assert s.buf[0..] == s.buf && was + s.buf[..0] == was;
    assert (was + s.buf[..n])[..|was|] == was;
    var wrote := WriteStep(s, n);
    assert wrote.files[s.fd := was] == s.files[s.fd := was];
  }

  lemma FlushPath<Data(!new)>(w: World<Data>, empty: Data, s: State<Data>, n: nat, takenBack: bool)
      returns (es: seq<Event>)
    requires (s.pc.Idle? || s.pc.Flushing?) && s.pending == 0 && n <= |s.buf|
    ensures Path(w, empty, true, s, es, FlushSteps(s, n, takenBack))
  {
    var s1 := WriteStep(s, n);
    OneStepPath(w, empty, true, s, Write(n));
    es := [Write(n)];
    if n == 0 {
      FlushMoves(s, 0, takenBack);
      assert s.buf[0..] == s.buf && s1 == FlushSteps(s, 0, takenBack);
    } else {
      var e := if takenBack && n < |s.buf| then TakeBack else Keep;
      PathThen(w, empty, true, s, es, s1, e);
      es := es + [e];
    }
  }

  // ----- the rewrite up to the fork

  /** openNewIncrAofForAppend. */
  function OpenSteps<Data>(s: State<Data>, openOk: bool, persistOk: bool): State<Data> {
    if !openOk then OpenStep(s, false)
    else if !persistOk then PersistIncrStep(OpenStep(s, true), false)
    else SwitchIncrStep(PersistIncrStep(OpenStep(s, true), true))
  }

  lemma OpenPath<Data(!new)>(
      w: World<Data>, empty: Data, clean: bool, s: State<Data>, openOk: bool, persistOk: bool) returns (es: seq<Event>)
    requires s.pc.Flushing? && s.pending == 0 && (clean && openOk && persistOk ==> s.buf == "")
    ensures Path(w, empty, clean, s, es, OpenSteps(s, openOk, persistOk))
  {
    OneStepPath(w, empty, clean, s, OpenIncr(openOk));
    es := [OpenIncr(openOk)];
    if openOk {
      var s1 := OpenStep(s, true);
      PathThen(w, empty, clean, s, es, s1, PersistIncr(persistOk));
      es := es + [PersistIncr(persistOk)];
      if persistOk {
        PathThen(w, empty, clean, s, es, PersistIncrStep(s1, true), SwitchIncr);
        es := es + [SwitchIncr];
      }
    }
  }

  /** rewriteAppendOnlyFileBackground with no child running. */
  function RewriteSteps<Data>(
      s: State<Data>, n: nat, takenBack: bool, openOk: bool, persistOk: bool, forkOk: bool): State<Data>
    requires n <= |s.buf|
  {
    var switched := OpenSteps(FlushSteps(BeginStep(s), n, takenBack), openOk, persistOk);
    if openOk && persistOk then ForkStep(switched, forkOk) else switched
  }

  lemma RewritePath<Data(!new)>(
      w: World<Data>, empty: Data, s: State<Data>, n: nat, takenBack: bool, openOk: bool, persistOk: bool, forkOk: bool)
      returns (es: seq<Event>)
    requires s.pc.Idle? && s.pending == 0 && s.child.None? && n <= |s.buf|
    ensures var clean := !openOk || !persistOk || n == |s.buf|;
      Path(w, empty, clean, s, es, RewriteSteps(s, n, takenBack, openOk, persistOk, forkOk))
  {
    var clean := !openOk || !persistOk || n == |s.buf|;
    OneStepPath(w, empty, clean, s, BeginRewrite);
    var s1 := BeginStep(s);
    var flush := FlushPath(w, empty, s1, n, takenBack);
    FlushMoves(s1, n, takenBack);
    var s2 := FlushSteps(s1, n, takenBack);
    PathAnyway(w, empty, clean, s1, flush, s2);
    PathAppend(w, empty, clean, s, [BeginRewrite], s1, flush, s2);
    var open := OpenPath(w, empty, clean, s2, openOk, persistOk);
    var s3 := OpenSteps(s2, openOk, persistOk);
    es := [BeginRewrite] + flush;
    PathAppend(w, empty, clean, s, es, s2, open, s3);
    es := es + open;
    if openOk && persistOk {
      PathThen(w, empty, clean, s, es, s3, Fork(forkOk));
      es := es + [Fork(forkOk)];
    }
  }

  lemma {:induction false} PathAnyway<Data(!new)>(
      w: World<Data>, empty: Data, clean: bool, s: State<Data>, es: seq<Event>, s': State<Data>)
    requires Path(w, empty, true, s, es, s')
    ensures Path(w, empty, clean, s, es, s')
    decreases |es|
  {
    if es != [] {
      PathAnyway(w, empty, clean, Next(w, empty, s, es[0]), es[1..], s');
    }
  }

  // ----- the end of the rewrite

  function DeleteAll<Data>(s: State<Data>): State<Data>
    decreases |s.am.history|
  {
    if s.am.history == [] then s else DeleteAll(DeleteStep(s))
  }

  /** The loop deletes the history files and nothing else. */
  lemma {:induction false} DeleteAllExact<Data>(s: State<Data>)
    ensures var s' := DeleteAll(s);
      && s'.am.history == [] && s'.am == s.am.(history := [], dirty := s.am.dirty || s.am.history != [])
      && (forall name :: name in s'.files <==> name in s.files && name !in s.am.history)
      && (forall name :: name in s'.files ==> s'.files[name] == s.files[name])
      && s' == s.(files := s'.files, am := s'.am)
    decreases |s.am.history|
  {
    if s.am.history != [] {
      DeleteAllExact(DeleteStep(s));
      assert forall name :: name in s.am.history <==> name == s.am.history[0] || name in s.am.history[1..];
    }
  }

  lemma {:induction false} DeletePath<Data(!new)>(w: World<Data>, empty: Data, s: State<Data>, ok: bool)
      returns (es: seq<Event>)
    requires s.pc.Deleting? && s.pending <= |s.buf|
    ensures Path(w, empty, true, s, es, PersistDeletedStep(DeleteAll(s), ok))
    decreases |s.am.history|
  {
    if s.am.history == [] {
      OneStepPath(w, empty, true, s, PersistDeleted(ok));
      es := [PersistDeleted(ok)];
    } else {
      OneStepPath(w, empty, true, s, DeleteOne);
      var more := DeletePath(w, empty, DeleteStep(s), ok);
      PathAppend(w, empty, true, s, [DeleteOne], DeleteStep(s), more, PersistDeletedStep(DeleteAll(s), ok));
      es := [DeleteOne] + more;
    }
  }

  // From the renamed BASE file on, when the new manifest is persisted.
  function CommitSteps<Data>(s: State<Data>, gc: bool, deletedOk: bool): State<Data>
    requires s.pc.Renamed?
  {
    var switched := SwitchBaseStep(PersistBaseStep(s, true), gc);
    if switched.pc.Deleting? then PersistDeletedStep(DeleteAll(switched), deletedOk) else switched
  }

  /** backgroundRewriteDoneHandler after a child that ended well. */
  function DoneSteps<Data>(s: State<Data>, renameOk: bool, persistOk: bool, gc: bool, deletedOk: bool): State<Data>
    requires s.pc.Finished?
  {
    if !renameOk then RenameStep(s, false)
    else if !persistOk then PersistBaseStep(RenameStep(s, true), false)
    else CommitSteps(RenameStep(s, true), gc, deletedOk)
  }

  lemma CommitPath<Data(!new)>(w: World<Data>, empty: Data, s: State<Data>, gc: bool, deletedOk: bool)
      returns (es: seq<Event>)
    requires s.pc.Renamed? && s.pending <= |s.buf|
    ensures Path(w, empty, true, s, es, CommitSteps(s, gc, deletedOk))
  {
    OneStepPath(w, empty, true, s, PersistBase(true));
    var s2 := PersistBaseStep(s, true);
    PathThen(w, empty, true, s, [PersistBase(true)], s2, SwitchBase(gc));
    es := [PersistBase(true)] + [SwitchBase(gc)];
    var s3 := SwitchBaseStep(s2, gc);
    if s3.pc.Deleting? {
      var more := DeletePath(w, empty, s3, deletedOk);
      PathAppend(w, empty, true, s, es, s3, more, PersistDeletedStep(DeleteAll(s3), deletedOk));
      es := es + more;
    }
  }

  lemma DonePath<Data(!new)>(
      w: World<Data>, empty: Data, s: State<Data>, renameOk: bool, persistOk: bool, gc: bool, deletedOk: bool)
      returns (es: seq<Event>)
    requires s.pc.Finished? && s.pending <= |s.buf|
    ensures Path(w, empty, true, s, es, DoneSteps(s, renameOk, persistOk, gc, deletedOk))
  {
    OneStepPath(w, empty, true, s, RenameBase(renameOk));
    es := [RenameBase(renameOk)];
    if renameOk {
      var s1 := RenameStep(s, true);
      if persistOk {
        var more := CommitPath(w, empty, s1, gc, deletedOk);
        PathAppend(w, empty, true, s, es, s1, more, CommitSteps(s1, gc, deletedOk));
        es := es + more;
      } else {
        PathThen(w, empty, true, s, es, s1, PersistBase(false));
        es := es + [PersistBase(false)];
      }
    }
  }

  // The same from the moment at which the child is found to have ended.
  lemma SucceedPath<Data(!new)>(
      w: World<Data>, empty: Data, s: State<Data>, base: seq<Cmd>, renameOk: bool, persistOk: bool, gc: bool,
      deletedOk: bool)
      returns (es: seq<Event>)
    requires Enabled(w, empty, s, ChildSucceeds(base)) && s.pending <= |s.buf|
    ensures Path(w, empty, true, s, es, DoneSteps(s.(pc := Finished(base)), renameOk, persistOk, gc, deletedOk))
  {
    var finished := s.(pc := Finished(base));
    OneStepPath(w, empty, true, s, ChildSucceeds(base));
    es := DonePath(w, empty, finished, renameOk, persistOk, gc, deletedOk);
    PathAppend(w, empty, true, s, [ChildSucceeds(base)], finished, es,
      DoneSteps(finished, renameOk, persistOk, gc, deletedOk));
    es := [ChildSucceeds(base)] + es;
  }
}
