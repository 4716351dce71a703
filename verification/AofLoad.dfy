/** loadSingleAppendOnlyFile: which commands a file, or any part of it that survived, executes. */
module AofLoad {
  import opened AofFormat
  import opened AofParse

  /** What the command table says of a command. */
  datatype Kind = Unknown | Plain | Multi | Exec

  type Lookup = Cmd -> Kind

  /** The fake client and the two offsets that the loader keeps. */
  datatype Progress = Progress(
    executed: seq<Cmd>, inMulti: bool, queued: seq<Cmd>, validUpTo: nat, beforeMulti: nat)

  const START := Progress([], false, [], 0, 0)

  /** Running or queueing one command that ends at offset next; only with aof-load-truncated does the loader
      keep track of the offset. */
  function Execute(lookup: Lookup, tolerant: bool, st: Progress, cmd: Cmd, next: nat): Progress {
    var kind := lookup(cmd);
    var st1 := if kind == Multi then st.(beforeMulti := st.validUpTo) else st;
    var st2 :=
      if st1.inMulti && kind != Exec then st1.(queued := st1.queued + [cmd])
      else
        match kind
        case Multi => st1.(inMulti := true, queued := [])
        case Exec =>
          if st1.inMulti then st1.(executed := st1.executed + st1.queued, inMulti := false, queued := []) else st1
        case _ => st1.(executed := st1.executed + [cmd]);
    if tolerant then st2.(validUpTo := next) else st2
  }

  /** AOF_OK; AOF_TRUNCATED with the file cut to this many bytes; AOF_FAILED. */
  datatype Outcome = Loaded | Truncated(at: nat) | Failed

  function Unexpected(tolerant: bool, at: nat): Outcome {
    if tolerant then Truncated(at) else Failed
  }

  type Reader = Bytes -> Reading

  // Every turn of the loop takes something from the file.
  ghost predicate Shrinks(read: Reader) {
    forall r :: (read(r).Command? || read(r).Annotation?) ==> |read(r).rest| < |r|
  }

  /** The loop of loadSingleAppendOnlyFile from the bytes r at this offset, for any reader of commands;
      tolerant is the option aof-load-truncated. */
  function LoadWith(
      read: Reader, lookup: Lookup, tolerant: bool, r: Bytes, offset: nat, st: Progress): (Outcome, Progress)
    requires Shrinks(read)
    decreases |r|
  {
    match read(r)
    case AtEnd => (if st.inMulti then Unexpected(tolerant, st.beforeMulti) else Loaded, st)
    case CutOff => (Unexpected(tolerant, st.validUpTo), st)
    case Malformed => (Failed, st)
    case Annotation(rest) => LoadWith(read, lookup, tolerant, rest, offset + |r| - |rest|, st)
    case Command(cmd, rest) =>
      var next := offset + |r| - |rest|;
      if lookup(cmd) == Unknown then (Failed, st)
      else LoadWith(read, lookup, tolerant, rest, next, Execute(lookup, tolerant, st, cmd, next))
  }

  lemma ReadShrinks()
    ensures Shrinks(ReadCommand)
  {
    forall r
      ensures (ReadCommand(r).Command? || ReadCommand(r).Annotation?) ==> |ReadCommand(r).rest| < |r|
    {
    }
  }

  /** The same with the reader of the format. */
  function Load(lookup: Lookup, tolerant: bool, r: Bytes, offset: nat, st: Progress): (Outcome, Progress) {
    ReadShrinks();
    LoadWith(ReadCommand, lookup, tolerant, r, offset, st)
  }

  /** The loop itself; r is what the stream still holds, offset where it stands. */
  method LoadSingleAppendOnlyFile(lookup: Lookup, tolerant: bool, file: Bytes) returns (outcome: Outcome, st: Progress)
    ensures (outcome, st) == Load(lookup, tolerant, file, 0, START)
  {
    ReadShrinks();
    outcome, st := LoadLoop(ReadCommand, lookup, tolerant, file);
  }

  method LoadLoop(read: Reader, lookup: Lookup, tolerant: bool, file: Bytes) returns (outcome: Outcome, st: Progress)
    requires Shrinks(read)
    ensures (outcome, st) == LoadWith(read, lookup, tolerant, file, 0, START)
  {
    st := START;
    var r := file;
    var offset: nat := 0;
    while true
      invariant LoadWith(read, lookup, tolerant, file, 0, START) == LoadWith(read, lookup, tolerant, r, offset, st)
      decreases |r|
    {
      match read(r) {
        case AtEnd =>
          return (if st.inMulti then Unexpected(tolerant, st.beforeMulti) else Loaded), st;
        case CutOff =>
          return Unexpected(tolerant, st.validUpTo), st;
        case Malformed =>
          return Failed, st;
        case Annotation(rest) =>
          offset := offset + |r| - |rest|;
          r := rest;
        case Command(cmd, rest) =>
          offset := offset + |r| - |rest|;
          r := rest;
          if lookup(cmd) == Unknown {
            return Failed, st;
          }
          st := Execute(lookup, tolerant, st, cmd, offset);
      }
    }
  }
}
