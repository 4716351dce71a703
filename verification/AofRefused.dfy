/** Which append-only files the loader refuses, and where it stops. */
module AofRefused {
  import opened Equality
  import opened Options
  import opened AofFormat
  import opened AofParse
  import opened AofLoad
  import opened AofRecovery
  import opened AofReplay
  import T = AofTruncate

  // ----- one file

  lemma {:induction false} LoadThenWith(
      read: Reader, lookup: Lookup, tolerant: bool, log: seq<Cmd>, tail: Bytes, offset: nat, st: Progress,
      end: nat, last: Progress)
    requires Reads(read) && Log(lookup, log)
    requires end == offset + |Encode(log)| && last == RunAll(lookup, tolerant, Size, st, log, offset)
    ensures Same(LoadWith(read, lookup, tolerant, Encode(log) + tail, offset, st),
                 LoadWith(read, lookup, tolerant, tail, end, last))
    decreases |log|
  {
    if log == [] {
      assert Encode(log) + tail == tail;
    } else {
      var next := offset + Size(log[0]);
      RunAllStep(lookup, tolerant, log, offset, st);
      FirstThen(read, lookup, tolerant, log, tail, offset, st);
      LoadThenWith(
        read, lookup, tolerant, log[1..], tail, next, Execute(lookup, tolerant, st, log[0], next), end, last);
    }
  }

  lemma RunAllStep(lookup: Lookup, tolerant: bool, log: seq<Cmd>, offset: nat, st: Progress)
    requires log != []
    ensures var next := offset + Size(log[0]);
      && offset + |Encode(log)| == next + |Encode(log[1..])|
      && RunAll(lookup, tolerant, Size, st, log, offset) ==
           RunAll(lookup, tolerant, Size, Execute(lookup, tolerant, st, log[0], next), log[1..], next)
  {
  }

  lemma FirstThen(
      read: Reader, lookup: Lookup, tolerant: bool, log: seq<Cmd>, tail: Bytes, offset: nat, st: Progress)
    requires Reads(read) && Log(lookup, log) && log != []
    ensures var next := offset + Size(log[0]);
      Same(LoadWith(read, lookup, tolerant, Encode(log) + tail, offset, st),
           LoadWith(read, lookup, tolerant, Encode(log[1..]) + tail, next,
                    Execute(lookup, tolerant, st, log[0], next)))
  {
    var more := Encode(log[1..]) + tail;
    assert Encode(log) + tail == EncodeCmd(log[0]) + more;
    assert read(EncodeCmd(log[0]) + more) == Command(log[0], more);
    LoadAfterRead(read, lookup, tolerant, Encode(log) + tail, more, log[0], offset, st);
  }

  /** What follows a log is read when the log has been run. */
  lemma LoadThen(
      lookup: Lookup, tolerant: bool, log: seq<Cmd>, tail: Bytes, offset: nat, st: Progress, end: nat, last: Progress)
    requires Log(lookup, log)
    requires end == offset + |Encode(log)| && last == RunAll(lookup, tolerant, Size, st, log, offset)
    ensures Same(Load(lookup, tolerant, Encode(log) + tail, offset, st), Load(lookup, tolerant, tail, end, last))
  {
    ReadCommandReads();
    LoadThenWith(ReadCommand, lookup, tolerant, log, tail, offset, st, end, last);
  }

  /** A command that the table does not know makes the file fail, whatever comes before and after it. */
  lemma UnknownFails(lookup: Lookup, tolerant: bool, log: seq<Cmd>, cmd: Cmd, tail: Bytes)
    requires Log(lookup, log) && Writable(cmd) && lookup(cmd) == Unknown
    ensures Load(lookup, tolerant, Encode(log) + (EncodeCmd(cmd) + tail), 0, START).0 == Failed
  {
    LoadThen(lookup, tolerant, log, EncodeCmd(cmd) + tail, 0, START,
             |Encode(log)|, RunAll(lookup, tolerant, Size, START, log, 0));
    ReadCommandBack(cmd, tail);
  }

  /** So does anything else than a command or an annotation. */
  lemma GarbageFails(lookup: Lookup, tolerant: bool, log: seq<Cmd>, tail: Bytes)
    requires Log(lookup, log) && tail != "" && tail[0] != '*' && tail[0] != '#'
    ensures Load(lookup, tolerant, Encode(log) + tail, 0, START).0 == Failed
  {
    LoadThen(lookup, tolerant, log, tail, 0, START,
             |Encode(log)|, RunAll(lookup, tolerant, Size, START, log, 0));
    assert ReadCommand(tail) == Malformed;
  }

  /** An annotation changes nothing but the offset. */
  lemma AnnotationSkipped(lookup: Lookup, tolerant: bool, line: Bytes, tail: Bytes, offset: nat, st: Progress)
    requires 2 <= |line| <= LINE_MAX && line[0] == '#' && line[|line| - 1] == '\n'
    requires forall i :: 0 <= i < |line| - 1 ==> line[i] != '\n'
    ensures Load(lookup, tolerant, line + tail, offset, st) == Load(lookup, tolerant, tail, offset + |line|, st)
  {
    var r := line + tail;
    LineEndAt(r, 0, |line| - 1);
    assert r[|line|..] == tail;
    assert ReadCommand(r) == Annotation(tail);
  }

  /** A prefix of a log loads iff it ends between commands and outside a transaction. Otherwise it is truncated with
      aof-load-truncated, after the commands that are kept, and refused without. */
  lemma PrefixOutcome(lookup: Lookup, tolerant: bool, log: seq<Cmd>, m: nat)
    requires Log(lookup, log) && m <= |Encode(log)|
    ensures var n, outcome := Whole(log, m), Load(lookup, tolerant, Encode(log)[..m], 0, START).0;
      if m == |Encode(log[..n])| && !Open(lookup, log[..n]) then outcome == Loaded
      else if tolerant then outcome == Truncated(|Encode(log[..T.Kept(lookup, log, m)])|)
      else outcome == Failed
  {
    var n := Whole(log, m);
    LoadPrefix(lookup, tolerant, log, m, 0, START);
    RunMeaning(lookup, tolerant, Size, START, log[..n], 0);
    T.WholeFits(log, m);
    if tolerant {
      T.RunIsMeaning(lookup, log[..n]);
      T.OffsetsOf(lookup, log[..n]);
      if T.Run(lookup, log[..n]).inMulti {
        T.OpenSinceLastMulti(lookup, log[..n]);
        assert log[..n][..T.LastMulti(lookup, log[..n])] == log[..T.LastMulti(lookup, log[..n])];
      }
    }
  }

  // ----- several files

  // File i of these keeps them from being loaded.
  ghost predicate Spoils(lookup: Lookup, tolerant: bool, files: seq<Bytes>, i: nat)
    requires i < |files|
  {
    var outcome := Load(lookup, tolerant, files[i], 0, START).0;
    outcome == Failed || (outcome != Loaded && i + 1 < |files|)
  }

  /** Files are refused iff one of them fails, or one before the last does not load to its end. */
  lemma {:induction false} RefusedExactly<Data>(
      run: Runner<Data>, lookup: Lookup, tolerant: bool, data: Data, files: seq<Bytes>)
    ensures LoadFiles(run, lookup, tolerant, data, files) == None
       <==> exists i :: 0 <= i < |files| && Spoils(lookup, tolerant, files, i)
    decreases |files|
  {
    if files != [] {
      SpoilsRest(lookup, tolerant, files);
      var (outcome, st) := Load(lookup, tolerant, files[0], 0, START);
      RefusedExactly(run, lookup, tolerant, run(data, st.executed), files[1..]);
    }
  }

  lemma SpoilsRest(lookup: Lookup, tolerant: bool, files: seq<Bytes>)
    requires files != []
    ensures (exists i :: 0 <= i < |files| && Spoils(lookup, tolerant, files, i))
       <==> Spoils(lookup, tolerant, files, 0)
            || exists i :: 0 <= i < |files[1..]| && Spoils(lookup, tolerant, files[1..], i)
  {
    if i: nat :| i < |files| && Spoils(lookup, tolerant, files, i) && i > 0 {
      assert files[1..][i - 1] == files[i];
      assert Spoils(lookup, tolerant, files[1..], i - 1);
    }
    if i: nat :| i < |files[1..]| && Spoils(lookup, tolerant, files[1..], i) {
      assert files[1..][i] == files[i + 1];
      assert Spoils(lookup, tolerant, files, i + 1);
    }
  }

  /** A log cut inside a command, in any file but the last, makes the load fail, with and without
      aof-load-truncated. */
  lemma CutBeforeLast<Data>(
      run: Runner<Data>, lookup: Lookup, tolerant: bool, data: Data, files: seq<Bytes>, i: nat, log: seq<Cmd>, m: nat)
    requires Log(lookup, log) && m <= |Encode(log)| && m > |Encode(log[..Whole(log, m)])|
    requires i + 1 < |files| && files[i] == Encode(log)[..m]
    ensures LoadFiles(run, lookup, tolerant, data, files) == None
  {
    PrefixOutcome(lookup, tolerant, log, m);
    assert Spoils(lookup, tolerant, files, i);
    RefusedExactly(run, lookup, tolerant, data, files);
  }
}
