/** The append-only files of one running server, step by step: feeding, flushing with any outcome of
    write and ftruncate, and the background rewrite with any outcome of open, rename, fork and of the
    child. Between two steps the process may stop. */
module AofProtocol {
  import opened Options
  import opened AofFormat
  import opened AofManifest
  import opened AofReplay
  import opened AofFeed

  /** Where the server stands inside rewriteAppendOnlyFileBackground or backgroundRewriteDoneHandler;
      temp is the manifest that is being prepared, base what the child has written. */
  datatype Pc =
    | Idle
    | Flushing
    | Opened(temp: Manifest)
    | Persisted(temp: Manifest)
    | Forking
    | Finished(base: seq<Cmd>)
    | Renamed(temp: Manifest, base: seq<Cmd>)
    | Committed(temp: Manifest, base: seq<Cmd>)
    | Deleting

  /** The directory (files and the manifest on disk) and the server: its manifest, the open INCR file,
      aof_buf (of which pending bytes are in the file already while a flush is under way),
      aof_selected_db, the dataset, and the dataset that a rewriting child was forked with. */
  datatype State<Data> = State(
    files: map<Name, Bytes>, disk: Manifest,
    am: Manifest, fd: Name, buf: Bytes, pending: nat, selected: Option<nat>,
    data: Data, child: Option<Data>, pc: Pc)

  /** What the protocol needs to know of commands: what those of one call do to the dataset, what a file of
      them does when it is replayed and which database is selected at its end, what a feed appends, how
      commands are written, which ones clients run, and which logs a file can hold. */
  datatype World<!Data> = World(
    exec: (Data, seq<Op>) -> Data, run: Runner<Data>, endDb: seq<Cmd> -> nat,
    fed: (Option<nat>, seq<Op>) -> seq<Cmd>, encode: seq<Cmd> -> Bytes,
    client: seq<Op> -> bool, closed: seq<Cmd> -> bool)

  datatype Event =
    | Feed(ops: seq<Op>)
    | Write(n: nat)
    | Keep
    | TakeBack
    | BeginRewrite
    | OpenIncr(ok: bool)
    | PersistIncr(ok: bool)
    | SwitchIncr
    | Fork(ok: bool)
    | ChildWrites(bytes: Bytes)
    | ChildFails
    | ChildSucceeds(base: seq<Cmd>)
    | RenameBase(ok: bool)
    | PersistBase(ok: bool)
    | SwitchBase(gc: bool)
    | DeleteOne
    | PersistDeleted(ok: bool)

  // aofOpenIfNeededOnServerStart with nothing to load.
  function Initial<Data>(empty: Data): State<Data> {
    var m := Manifest(Some(BaseFile(1)), [IncrFile(1)], [], 1, 1, false);
    State(map[BaseFile(1) := "", IncrFile(1) := ""], m, m, IncrFile(1), "", 0, None, empty, None, Idle)
  }

  /** Which steps can come next. A child ends well only after it has written commands that rebuild the
      dataset it was forked with. */
  ghost predicate Enabled<Data(!new)>(w: World<Data>, empty: Data, s: State<Data>, e: Event) {
    match e
    case Feed(ops) => s.pc.Idle? && s.pending == 0 && ops != [] && w.client(ops)
    case Write(n) => (s.pc.Idle? || s.pc.Flushing?) && s.pending == 0 && n <= |s.buf|
    case Keep => s.pending > 0
    case TakeBack => 0 < s.pending < |s.buf|
    case BeginRewrite => s.pc.Idle? && s.pending == 0 && s.child.None?
    case OpenIncr(_) => s.pc.Flushing? && s.pending == 0
    case PersistIncr(_) => s.pc.Opened?
    case SwitchIncr => s.pc.Persisted?
    case Fork(_) => s.pc.Forking?
    case ChildWrites(_) => s.child.Some? && s.pc.Idle?
    case ChildFails => s.child.Some? && s.pc.Idle? && s.pending == 0
    case ChildSucceeds(base) => s.child.Some? && s.pc.Idle? && s.pending == 0
                                && TempFile in s.files && s.files[TempFile] == w.encode(base)
                                && w.closed(base) && w.run(empty, base) == s.child.value
    case RenameBase(_) => s.pc.Finished?
    case PersistBase(_) => s.pc.Renamed?
    case SwitchBase(_) => s.pc.Committed?
    case DeleteOne => s.pc.Deleting? && s.am.history != []
    case PersistDeleted(_) => s.pc.Deleting? && s.am.history == []
  }

  // persistAofManifest when every call succeeds.
  function Persist(disk: Manifest, m: Manifest): Manifest {
    if m.dirty then m.(dirty := false) else disk
  }

  function Contents(files: map<Name, Bytes>, name: Name): Bytes {
    if name in files then files[name] else ""
  }

  // ----- feeding and flushing

  /** propagatePendingCommands, after the commands of one call have changed the dataset. */
  function FeedStep<Data>(w: World<Data>, s: State<Data>, ops: seq<Op>): State<Data>
    requires ops != []
  {
    s.(data := w.exec(s.data, ops), selected := Some(ops[|ops| - 1].db),
       buf := s.buf + w.encode(w.fed(s.selected, ops)))
  }

  /** aofWrite gets n bytes into the file. */
  function WriteStep<Data>(s: State<Data>, n: nat): State<Data>
    requires n <= |s.buf|
  {
    s.(files := s.files[s.fd := Contents(s.files, s.fd) + s.buf[..n]], pending := n)
  }

  /** The flush drops what it has written from the buffer. */
  function KeepStep<Data>(s: State<Data>): State<Data>
    requires s.pending <= |s.buf|
  {
    s.(buf := s.buf[s.pending..], pending := 0)
  }

  /** ftruncate takes a short write back. */
  function TakeBackStep<Data>(s: State<Data>): State<Data> {
    s.(files := TakenBack(s.files, s.fd, s.pending), pending := 0)
  }

  // The last n bytes of a file, taken back.
  function TakenBack(files: map<Name, Bytes>, fd: Name, n: nat): map<Name, Bytes> {
    var was := Contents(files, fd);
    if n > |was| then files else files[fd := was[..|was| - n]]
  }

  // ----- rewriteAppendOnlyFileBackground and openNewIncrAofForAppend

  function BeginStep<Data>(s: State<Data>): State<Data> {
    s.(selected := None, pc := Flushing)
  }

  function OpenStep<Data>(s: State<Data>, ok: bool): State<Data> {
    var temp := NewIncr(s.am);
    if ok then s.(files := s.files[IncrFile(temp.incrSeq) := ""], pc := Opened(temp)) else s.(pc := Idle)
  }

  function PersistIncrStep<Data>(s: State<Data>, ok: bool): State<Data>
    requires s.pc.Opened?
  {
    if ok then s.(disk := Persist(s.disk, s.pc.temp), pc := Persisted(s.pc.temp.(dirty := false))) else s.(pc := Idle)
  }

  function SwitchIncrStep<Data>(s: State<Data>): State<Data>
    requires s.pc.Persisted?
  {
    s.(fd := IncrFile(s.pc.temp.incrSeq), am := s.pc.temp, pc := Forking)
  }

  function ForkStep<Data>(s: State<Data>, ok: bool): State<Data> {
    s.(child := if ok then Some(s.data) else None, pc := Idle)
  }

  // ----- the child, and backgroundRewriteDoneHandler

  function ChildWritesStep<Data>(s: State<Data>, bytes: Bytes): State<Data> {
    s.(files := s.files[TempFile := bytes])
  }

  function ChildFailsStep<Data>(s: State<Data>): State<Data> {
    s.(child := None, files := s.files - {TempFile})
  }

  function RenameStep<Data>(s: State<Data>, ok: bool): State<Data>
    requires s.pc.Finished?
  {
    var temp := NewBase(s.am);
    if ok then
      s.(files := (s.files - {TempFile})[BaseFile(temp.baseSeq) := Contents(s.files, TempFile)],
         pc := Renamed(temp, s.pc.base))
    else s.(child := None, files := s.files - {TempFile}, pc := Idle)
  }

  function PersistBaseStep<Data>(s: State<Data>, ok: bool): State<Data>
    requires s.pc.Renamed?
  {
    var temp := MarkHistory(s.pc.temp);
    if ok then s.(disk := Persist(s.disk, temp), pc := Committed(temp.(dirty := false), s.pc.base))
    else s.(child := None, files := s.files - {BaseFile(temp.baseSeq)}, pc := Idle)
  }

  function SwitchBaseStep<Data>(s: State<Data>, gc: bool): State<Data>
    requires s.pc.Committed?
  {
    s.(am := s.pc.temp, selected := None, child := None, pc := if gc && s.pc.temp.history != [] then Deleting else Idle)
  }

  /** One round of the loop of aofDelHistoryFiles. */
  function DeleteStep<Data>(s: State<Data>): State<Data>
    requires s.am.history != []
  {
    s.(files := s.files - {s.am.history[0]}, am := s.am.(history := s.am.history[1..], dirty := true))
  }

  function PersistDeletedStep<Data>(s: State<Data>, ok: bool): State<Data> {
    if ok then s.(disk := Persist(s.disk, s.am), am := s.am.(dirty := false), pc := Idle) else s.(pc := Idle)
  }

  ghost function Next<Data(!new)>(w: World<Data>, empty: Data, s: State<Data>, e: Event): State<Data>
    requires Enabled(w, empty, s, e) && s.pending <= |s.buf|
  {
    match e
    case Feed(ops) => FeedStep(w, s, ops)
    case Write(n) => WriteStep(s, n)
    case Keep => KeepStep(s)
    case TakeBack => TakeBackStep(s)
    case BeginRewrite => BeginStep(s)
    case OpenIncr(ok) => OpenStep(s, ok)
    case PersistIncr(ok) => PersistIncrStep(s, ok)
    case SwitchIncr => SwitchIncrStep(s)
    case Fork(ok) => ForkStep(s, ok)
    case ChildWrites(bytes) => ChildWritesStep(s, bytes)
    case ChildFails => ChildFailsStep(s)
    case ChildSucceeds(base) => s.(pc := Finished(base))
    case RenameBase(ok) => RenameStep(s, ok)
    case PersistBase(ok) => PersistBaseStep(s, ok)
    case SwitchBase(gc) => SwitchBaseStep(s, gc)
    case DeleteOne => DeleteStep(s)
    case PersistDeleted(ok) => PersistDeletedStep(s, ok)
  }

  /** States one after the other, each by some step that can come next. */
  ghost predicate IsTrace<Data(!new)>(w: World<Data>, empty: Data, states: seq<State<Data>>, es: seq<Event>) {
    && |states| == |es| + 1
    && forall i {:trigger es[i]} :: 0 <= i < |es| ==> IsStep(w, empty, states[i], es[i], states[i + 1])
  }

  /** A run starts from an empty server. */
  ghost predicate IsRun<Data(!new)>(w: World<Data>, empty: Data, states: seq<State<Data>>, es: seq<Event>) {
    IsTrace(w, empty, states, es) && states[0] == Initial(empty)
  }

  ghost predicate IsStep<Data(!new)>(w: World<Data>, empty: Data, s: State<Data>, e: Event, s': State<Data>) {
    && s.pending <= |s.buf|
    && Enabled(w, empty, s, e)
    && s' == Next(w, empty, s, e)
  }

  /** A new INCR file goes into the manifest only when the forced flush has emptied the buffer. */
  ghost predicate FlushesFirst<Data>(states: seq<State<Data>>, es: seq<Event>)
    requires |states| == |es| + 1
  {
    forall i {:trigger es[i]} :: 0 <= i < |es| ==> Flushed(states[i], es[i])
  }

  predicate Flushed<Data>(s: State<Data>, e: Event) {
    e == PersistIncr(true) ==> s.buf == ""
  }

  // ----- what every reachable state keeps

  type Logs = map<Name, seq<Cmd>>

  ghost function LogOf(logs: Logs, name: Name): seq<Cmd> {
    if name in logs then logs[name] else []
  }

  ghost function LogsOf(logs: Logs, names: seq<Name>): (r: seq<seq<Cmd>>)
    ensures |r| == |names| && forall i :: 0 <= i < |r| ==> r[i] == LogOf(logs, names[i])
  {
    seq(|names|, i requires 0 <= i < |names| => LogOf(logs, names[i]))
  }

  // The files before the last one.
  ghost function Earlier(m: Manifest): seq<Name>
    requires m.incrs != []
  {
    Names(m)[..|Names(m)| - 1]
  }

  ghost function Last(m: Manifest): Name
    requires m.incrs != []
  {
    m.incrs[|m.incrs| - 1]
  }

  // The manifest in memory that has the same files to load as the one on disk.
  ghost function Held(am: Manifest, pc: Pc): Manifest {
    match pc
    case Persisted(temp) => temp
    case Committed(temp, _) => temp
    case _ => am
  }

  ghost predicate ManifestOk(disk: Manifest, am: Manifest, fd: Name, pc: Pc) {
    && WellFormed(Held(am, pc)) && WellFormed(disk) && !disk.dirty
    && disk.base == Held(am, pc).base && disk.incrs == Held(am, pc).incrs
    && am.incrs != [] && fd == Last(am) && disk.incrs != [] && disk.base.Some?
    && (!pc.Persisted? ==> fd == Last(disk))
  }

  // This file, followed by these bytes, holds its log.
  ghost predicate HoldsLog<Data>(w: World<Data>, files: map<Name, Bytes>, name: Name, tail: Bytes, logs: Logs) {
    name in files && name in logs && w.closed(logs[name]) && files[name] + tail == w.encode(logs[name])
  }

  // What is still in the buffer and not in the file.
  ghost function Tail(buf: Bytes, pending: nat, fd: Name, name: Name): Bytes
    requires pending <= |buf|
  {
    if name == fd then buf[pending..] else ""
  }

  // The bytes of a write that is under way are the last of the file and the first of the buffer.
  ghost predicate PendingOk(files: map<Name, Bytes>, fd: Name, buf: Bytes, pending: nat) {
    && pending <= |buf|
    && (pending > 0 ==> fd in files && pending <= |files[fd]| && files[fd][|files[fd]| - pending..] == buf[..pending])
  }

  // Each file to load, with the buffer after the open one, holds a log.
  ghost predicate FilesOk<Data>(
      w: World<Data>, files: map<Name, Bytes>, names: seq<Name>, fd: Name, buf: Bytes, pending: nat, logs: Logs)
  {
    && PendingOk(files, fd, buf, pending)
    && forall name :: name in names ==> HoldsLog(w, files, name, Tail(buf, pending, fd, name), logs)
  }

  // The dataset before the last file is replayed.
  ghost function Before<Data>(w: World<Data>, empty: Data, m: Manifest, logs: Logs): Data
    requires m.incrs != []
  {
    Replay(w.run, empty, LogsOf(logs, Earlier(m)))
  }

  ghost predicate DataOk<Data>(
      w: World<Data>, empty: Data, disk: Manifest, fd: Name, data: Data, selected: Option<nat>, child: Option<Data>,
      logs: Logs)
  {
    && disk.incrs != []
    && w.run(Before(w, empty, disk, logs), LogOf(logs, Last(disk))) == data
    && (selected.Some? ==> w.endDb(LogOf(logs, fd)) == selected.value)
    && (child.Some? ==> child.value == Before(w, empty, disk, logs))
  }

  // The child's file holds commands that rebuild its dataset.
  ghost predicate Rewritten<Data>(
      w: World<Data>, empty: Data, files: map<Name, Bytes>, name: Name, base: seq<Cmd>, child: Option<Data>)
  {
    && child == Some(w.run(empty, base)) && w.closed(base)
    && name in files && files[name] == w.encode(base)
  }

  ghost predicate PcOk<Data>(w: World<Data>, empty: Data, s: State<Data>, logs: Logs) {
    match s.pc
    case Idle => true
    case Flushing => s.selected.None? && s.child.None?
    case Opened(temp) =>
      && s.pending == 0 && s.selected.None? && s.child.None?
      && temp == NewIncr(s.am) && IncrFile(temp.incrSeq) in s.files && s.files[IncrFile(temp.incrSeq)] == ""
    case Persisted(temp) =>
      && s.buf == "" && s.selected.None? && s.child.None?
      && temp == NewIncr(s.am).(dirty := false) && LogOf(logs, IncrFile(temp.incrSeq)) == []
    case Forking => s.buf == "" && s.selected.None? && s.child.None? && LogOf(logs, s.fd) == []
    case Finished(base) => s.pending == 0 && Rewritten(w, empty, s.files, TempFile, base, s.child)
    case Renamed(temp, base) =>
      && s.pending == 0 && temp == NewBase(s.am)
      && Rewritten(w, empty, s.files, BaseFile(temp.baseSeq), base, s.child)
    case Committed(temp, _) => s.pending == 0 && temp == MarkHistory(NewBase(s.am)).(dirty := false)
    case Deleting => s.pending == 0 && s.child.None? && s.selected.None?
  }

  ghost predicate Inv<Data>(w: World<Data>, empty: Data, s: State<Data>, logs: Logs) {
    && ManifestOk(s.disk, s.am, s.fd, s.pc)
    && FilesOk(w, s.files, Names(s.disk), s.fd, s.buf, s.pending, logs)
    && DataOk(w, empty, s.disk, s.fd, s.data, s.selected, s.child, logs)
    && PcOk(w, empty, s, logs)
  }
}
