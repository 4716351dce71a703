/** The manifest of the append-only files: one BASE file, a list of INCR files, and the history files
    that a rewrite made useless. */
module AofManifest {
  import opened Options

  /** File names hold the kind and the sequence number; TempFile is what a rewriting child writes. */
  datatype Name = BaseFile(n: nat) | IncrFile(n: nat) | TempFile

  datatype Manifest = Manifest(
    base: Option<Name>, incrs: seq<Name>, history: seq<Name>, baseSeq: nat, incrSeq: nat, dirty: bool)

  /** The files to load, in order. */
  function Names(m: Manifest): seq<Name> {
    (if m.base.Some? then [m.base.value] else []) + m.incrs
  }

  // A name that was already given out.
  predicate Used(m: Manifest, name: Name) {
    match name
    case BaseFile(n) => n <= m.baseSeq
    case IncrFile(n) => n <= m.incrSeq
    case TempFile => false
  }

  ghost predicate BaseOk(m: Manifest) {
    m.base.Some? ==> m.base.value == BaseFile(m.baseSeq) && m.baseSeq >= 1
  }

  // INCR files have increasing numbers, the last of which was given out last.
  ghost predicate IncrsOk(m: Manifest) {
    && (forall i :: 0 <= i < |m.incrs| ==> m.incrs[i].IncrFile? && 1 <= m.incrs[i].n <= m.incrSeq)
    && (forall i, j :: 0 <= i < j < |m.incrs| ==> m.incrs[i].n < m.incrs[j].n)
    && (m.incrs != [] ==> m.incrs[|m.incrs| - 1].n == m.incrSeq)
  }

  ghost predicate HistoryOk(m: Manifest) {
    forall i :: 0 <= i < |m.history| ==> Used(m, m.history[i]) && m.history[i].n >= 1 && m.history[i] !in Names(m)
  }

  /** Names are never given out twice, and history files are not files to load. */
  ghost predicate WellFormed(m: Manifest) {
    BaseOk(m) && IncrsOk(m) && HistoryOk(m)
  }

  /** getNewBaseFileNameAndMarkPreAsHistory */
  function NewBase(m: Manifest): Manifest {
    m.(base := Some(BaseFile(m.baseSeq + 1)),
       baseSeq := m.baseSeq + 1,
       history := (if m.base.Some? then [m.base.value] else []) + m.history,
       dirty := true)
  }

  lemma NewBaseKeeps(m: Manifest)
    requires WellFormed(m)
    ensures WellFormed(NewBase(m)) && !Used(m, BaseFile(NewBase(m).baseSeq))
  {
    var m' := NewBase(m);
    forall i | 0 <= i < |m'.history|
      ensures Used(m', m'.history[i]) && m'.history[i].n >= 1 && m'.history[i] !in Names(m')
    {
      var k := |m'.history| - |m.history|;
      assert i >= k ==> m'.history[i] == m.history[i - k];
    }
  }

  lemma DirtyKeeps(m: Manifest, dirty: bool)
    requires WellFormed(m)
    ensures WellFormed(m.(dirty := dirty)) && Names(m.(dirty := dirty)) == Names(m)
  {
  }

  /** getNewIncrAofName */
  function NewIncr(m: Manifest): Manifest {
    m.(incrs := m.incrs + [IncrFile(m.incrSeq + 1)], incrSeq := m.incrSeq + 1, dirty := true)
  }

  lemma NewIncrKeeps(m: Manifest)
    requires WellFormed(m)
    ensures WellFormed(NewIncr(m)) && !Used(m, IncrFile(NewIncr(m).incrSeq))
    ensures Names(NewIncr(m)) == Names(m) + [IncrFile(NewIncr(m).incrSeq)]
  {
    NewIncrNumbers(m);
    NewIncrHistory(m);
  }

  lemma NewIncrNumbers(m: Manifest)
    requires IncrsOk(m)
    ensures IncrsOk(NewIncr(m))
  {
    var incrs := NewIncr(m).incrs;
    forall i | 0 <= i < |incrs|
      ensures incrs[i].IncrFile? && 1 <= incrs[i].n <= m.incrSeq + 1 && (i < |m.incrs| ==> incrs[i].n <= m.incrSeq)
    {
      assert i < |m.incrs| ==> incrs[i] == m.incrs[i];
    }
    forall i, j | 0 <= i < j < |incrs|
      ensures incrs[i].n < incrs[j].n
    {
      assert incrs[i] == m.incrs[i] && (j < |m.incrs| ==> incrs[j] == m.incrs[j]);
    }
  }

  lemma NewIncrHistory(m: Manifest)
    requires HistoryOk(m)
    ensures HistoryOk(NewIncr(m)) && Names(NewIncr(m)) == Names(m) + [IncrFile(NewIncr(m).incrSeq)]
  {
  }

  /** markRewrittenIncrAofAsHistory with the append-only file open: all but the last INCR file. */
  function MarkHistory(m: Manifest): Manifest {
    if m.incrs == [] then m
    else
      var k := |m.incrs| - 1;
      m.(incrs := [m.incrs[k]], history := m.incrs[..k] + m.history, dirty := true)
  }

  lemma MarkHistoryKeeps(m: Manifest)
    requires WellFormed(m)
    ensures WellFormed(MarkHistory(m))
  {
  }

  /** The loop of markRewrittenIncrAofAsHistory, from the tail of the list; open says whether the
      append-only file is open. */
  method MarkRewrittenIncrAofAsHistory(m: Manifest, open: bool) returns (m': Manifest)
    ensures open ==> m' == MarkHistory(m)
    ensures !open && m.incrs != [] ==> m' == m.(incrs := [], history := m.incrs + m.history, dirty := true)
  {
    if m.incrs == [] {
      return m;
    }
    var incrs, history, i := m.incrs, m.history, |m.incrs|;
    if open {
      i := i - 1;
    }
    ghost var k := i;
    while i > 0
      invariant 0 <= i <= k
      invariant incrs == m.incrs[..i] + m.incrs[k..] && history == m.incrs[i..k] + m.history
    {
      i := i - 1;
      MoveOne(m.incrs, m.history, i, k);
      history := [incrs[i]] + history;
      incrs := incrs[..i] + incrs[i + 1..];
    }
    assert m.incrs[0..k] == m.incrs[..k];
    return m.(incrs := incrs, history := history, dirty := true);
  }

  // Taking node i out of the list and putting it at the head of the history.
  lemma MoveOne(all: seq<Name>, history: seq<Name>, i: nat, k: nat)
    requires i < k <= |all|
    ensures var incrs := all[..i + 1] + all[k..];
      incrs[i] == all[i] && incrs[..i] + incrs[i + 1..] == all[..i] + all[k..]
    ensures [all[i]] + (all[i + 1..k] + history) == all[i..k] + history
  {
    assert all[i..k] == [all[i]] + all[i + 1..k];
  }

  /** Names to load are distinct. */
  lemma NamesDistinct(m: Manifest)
    requires WellFormed(m)
    ensures forall i, j :: 0 <= i < j < |Names(m)| ==> Names(m)[i] != Names(m)[j]
    ensures forall i :: 0 <= i < |Names(m)| ==> Used(m, Names(m)[i])
  {
  }

  // ----- the manifest on disk

  /** What one line of the manifest file says. */
  datatype Line = BaseLine(n: nat) | HistoryLine(name: Name) | IncrLine(n: nat)

  /** getAofManifestAsString: the BASE file, the history and the INCR files, in this order. */
  function Lines(m: Manifest): seq<Line> {
    (if m.base.Some? && m.base.value.BaseFile? then [BaseLine(m.base.value.n)] else [])
    + HistoryLines(m.history) + IncrLines(m.incrs)
  }

  function HistoryLines(names: seq<Name>): seq<Line> {
    if names == [] then [] else [HistoryLine(names[0])] + HistoryLines(names[1..])
  }

  function IncrLines(names: seq<Name>): seq<Line> {
    if names == [] then [] else [IncrLine(if names[0].IncrFile? then names[0].n else 0)] + IncrLines(names[1..])
  }

  const NO_FILES := Manifest(None, [], [], 0, 0, false)

  // One line, after the manifest read so far; the numbers are taken from the names.
  function ReadLine(m: Manifest, line: Line): Option<Manifest> {
    match line
    case BaseLine(n) =>
      if n == 0 || m.base.Some? then None else Some(m.(base := Some(BaseFile(n)), baseSeq := n))
    case HistoryLine(name) =>
      if name.TempFile? || name.n == 0 then None else Some(m.(history := m.history + [name]))
    case IncrLine(n) =>
      if n == 0 || n <= m.incrSeq then None else Some(m.(incrs := m.incrs + [IncrFile(n)], incrSeq := n))
  }

  function ReadLines(m: Manifest, lines: seq<Line>): Option<Manifest>
    decreases |lines|
  {
    if lines == [] then Some(m)
    else match ReadLine(m, lines[0])
      case None => None
      case Some(m') => ReadLines(m', lines[1..])
  }

  /** aofLoadManifestFromFile, line by line. */
  method AofLoadManifestFromFile(lines: seq<Line>) returns (r: Option<Manifest>)
    ensures r == if lines == [] then None else ReadLines(NO_FILES, lines)
  {
    if lines == [] {
      return None;
    }
    var m, i := NO_FILES, 0;
    assert lines[0..] == lines;
    while i < |lines|
      invariant 0 <= i <= |lines| && ReadLines(NO_FILES, lines) == ReadLines(m, lines[i..])
    {
      var next := ReadLine(m, lines[i]);
      assert lines[i..][1..] == lines[i + 1..];
      if next.None? {
        return None;
      }
      m := next.value;
      i := i + 1;
    }
    return Some(m);
  }

  lemma {:induction false} ReadAppended(m: Manifest, a: seq<Line>, b: seq<Line>)
    ensures ReadLines(m, a + b)
         == match ReadLines(m, a)
            case None => None
            case Some(m') => ReadLines(m', b)
    decreases |a|
  {
    if a == [] {
      assert a + b == b;
    } else {
      assert (a + b)[1..] == a[1..] + b;
      match ReadLine(m, a[0])
      case None =>
      case Some(m') => ReadAppended(m', a[1..], b);
    }
  }

  lemma {:induction false} HistoryRead(m: Manifest, names: seq<Name>)
    requires forall i :: 0 <= i < |names| ==> !names[i].TempFile? && names[i].n >= 1
    ensures ReadLines(m, HistoryLines(names)) == Some(m.(history := m.history + names))
    decreases |names|
  {
    if names == [] {
      assert m.history + names == m.history;
    } else {
      HistoryRead(m.(history := m.history + [names[0]]), names[1..]);
      assert m.history + [names[0]] + names[1..] == m.history + names;
    }
  }

  lemma {:induction false} IncrsRead(m: Manifest, names: seq<Name>)
    requires forall i :: 0 <= i < |names| ==> names[i].IncrFile? && names[i].n > m.incrSeq
    requires forall i, j :: 0 <= i < j < |names| ==> names[i].n < names[j].n
    ensures ReadLines(m, IncrLines(names))
         == Some(m.(incrs := m.incrs + names, incrSeq := if names == [] then m.incrSeq else names[|names| - 1].n))
    decreases |names|
  {
    if names == [] {
      assert m.incrs + names == m.incrs;
    } else {
      IncrsRead(m.(incrs := m.incrs + [names[0]], incrSeq := names[0].n), names[1..]);
      assert m.incrs + [names[0]] + names[1..] == m.incrs + names;
    }
  }

  lemma HeadRead(none: Manifest, m: Manifest)
    requires none == NO_FILES && BaseOk(m) && HistoryOk(m) && m.base.Some?
    ensures ReadLines(none, [BaseLine(m.baseSeq)] + HistoryLines(m.history))
         == Some(none.(base := m.base, baseSeq := m.baseSeq, history := m.history))
  {
    var m1 := none.(base := m.base, baseSeq := m.baseSeq);
    var lines := [BaseLine(m.baseSeq)] + HistoryLines(m.history);
    assert lines[1..] == HistoryLines(m.history);
    assert ReadLine(none, lines[0]) == Some(m1);
    HistoryRead(m1, m.history);
    assert [] + m.history == m.history;
  }

  lemma TailRead(none: Manifest, m: Manifest, lines: seq<Line>, m1: Manifest)
    requires IncrsOk(m) && m.incrs != [] && m1.incrs == [] && m1.incrSeq == 0 && ReadLines(none, lines) == Some(m1)
    ensures ReadLines(none, lines + IncrLines(m.incrs)) == Some(m1.(incrs := m.incrs, incrSeq := m.incrSeq))
  {
    ReadAppended(none, lines, IncrLines(m.incrs));
    IncrsRead(m1, m.incrs);
    assert [] + m.incrs == m.incrs;
  }

  /** A manifest is read back as it was written, with the numbers recomputed from its names. */
  lemma ManifestReadBack(m: Manifest)
    requires WellFormed(m) && m.base.Some? && m.incrs != []
    ensures Lines(m) != [] && ReadLines(NO_FILES, Lines(m)) == Some(m.(dirty := false))
  {
    var none := NO_FILES;
    HeadRead(none, m);
    TailRead(none, m, [BaseLine(m.baseSeq)] + HistoryLines(m.history),
      none.(base := m.base, baseSeq := m.baseSeq, history := m.history));
  }

  // ----- which manifests are refused

  predicate ValidLine(line: Line) {
    match line
    case BaseLine(n) => n > 0
    case HistoryLine(name) => !name.TempFile? && name.n > 0
    case IncrLine(n) => n > 0
  }

  // INCR numbers above this one, in increasing order.
  ghost predicate Increasing(lines: seq<Line>, above: nat) {
    && (forall i :: 0 <= i < |lines| && lines[i].IncrLine? ==> lines[i].n > above)
    && (forall i, j :: 0 <= i < j < |lines| && lines[i].IncrLine? && lines[j].IncrLine? ==> lines[i].n < lines[j].n)
  }

  // At most one BASE file, and none if there is one already.
  ghost predicate OneBase(lines: seq<Line>, already: bool) {
    && (already ==> forall i :: 0 <= i < |lines| ==> !lines[i].BaseLine?)
    && (forall i, j :: 0 <= i < j < |lines| ==> !(lines[i].BaseLine? && lines[j].BaseLine?))
  }

  ghost predicate Acceptable(lines: seq<Line>, already: bool, above: nat) {
    (forall i :: 0 <= i < |lines| ==> ValidLine(lines[i])) && OneBase(lines, already) && Increasing(lines, above)
  }

  lemma AcceptableStep(lines: seq<Line>, already: bool, above: nat)
    requires lines != []
    ensures var first := lines[0];
      Acceptable(lines, already, above) <==>
        && ValidLine(first) && !(already && first.BaseLine?) && (first.IncrLine? ==> first.n > above)
        && Acceptable(lines[1..], already || first.BaseLine?, if first.IncrLine? then first.n else above)
  {
    var first, rest := lines[0], lines[1..];
    assert forall i :: 0 <= i < |rest| ==> rest[i] == lines[i + 1];
    if Acceptable(rest, already || first.BaseLine?, if first.IncrLine? then first.n else above)
      && ValidLine(first) && !(already && first.BaseLine?) && (first.IncrLine? ==> first.n > above)
    {
      RestAcceptable(lines, already, above);
    }
  }

  lemma RestAcceptable(lines: seq<Line>, already: bool, above: nat)
    requires lines != []
    requires var first := lines[0];
      && ValidLine(first) && !(already && first.BaseLine?) && (first.IncrLine? ==> first.n > above)
      && Acceptable(lines[1..], already || first.BaseLine?, if first.IncrLine? then first.n else above)
    ensures Acceptable(lines, already, above)
  {
    assert forall i :: 0 < i < |lines| ==> lines[i] == lines[1..][i - 1];
  }

  /** A manifest is read iff every line is valid, there is at most one BASE file, and the INCR numbers increase. */
  lemma {:induction false} ReadExactly(m: Manifest, lines: seq<Line>)
    ensures ReadLines(m, lines).Some? <==> Acceptable(lines, m.base.Some?, m.incrSeq)
    decreases |lines|
  {
    if lines != [] {
      AcceptableStep(lines, m.base.Some?, m.incrSeq);
      match ReadLine(m, lines[0])
      case None =>
      case Some(m') => ReadExactly(m', lines[1..]);
    }
  }

  // ----- no file is forgotten

  // All files that the manifest knows.
  function Known(m: Manifest): multiset<Name> {
    multiset(Names(m)) + multiset(m.history)
  }

  /** A new BASE file replaces the old one among the files to load; the old one is kept as history. */
  lemma NewBaseConserves(m: Manifest)
    ensures Known(NewBase(m)) == Known(m) + multiset{BaseFile(m.baseSeq + 1)}
    ensures Names(NewBase(m)) == [BaseFile(m.baseSeq + 1)] + m.incrs
  {
  }

  lemma NewIncrConserves(m: Manifest)
    ensures Known(NewIncr(m)) == Known(m) + multiset{IncrFile(m.incrSeq + 1)}
  {
    assert Names(NewIncr(m)) == Names(m) + [IncrFile(m.incrSeq + 1)];
  }

  /** Marking rewritten INCR files as history forgets none of them and leaves just the last one to load. */
  lemma MarkHistoryConserves(m: Manifest)
    ensures Known(MarkHistory(m)) == Known(m) && MarkHistory(m).base == m.base
    ensures m.incrs != [] ==> MarkHistory(m).incrs == [m.incrs[|m.incrs| - 1]]
  {
    if m.incrs != [] {
      var k := |m.incrs| - 1;
      var base := if m.base.Some? then [m.base.value] else [];
      assert m.incrs == m.incrs[..k] + [m.incrs[k]];
      assert Names(m) == base + m.incrs && Names(MarkHistory(m)) == base + [m.incrs[k]];
    }
  }
}
