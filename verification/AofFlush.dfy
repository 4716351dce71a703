/** Writing the append-only buffer out: aofWrite and flushAppendOnlyFile under every outcome of write,
    ftruncate and fsync. A write appends to the file. */
module AofFlush {
  import opened AofFormat

  /** One call of write: some bytes (as many as asked for, at most), EINTR, or another error. */
  datatype WriteOutcome = Wrote(n: nat) | Interrupted | Error

  datatype Policy = Never | EverySec | Always

  /** What the system does during one flush. When the outcomes of write are used up the next call
      fails, so that every run of the retry loop that ends is some list of outcomes. */
  datatype Env = Env(
    now: nat, fsyncInProgress: bool, childActive: bool,
    writes: seq<WriteOutcome>, truncateOk: bool, fsyncOk: bool)

  /** How many of len bytes a retry loop gets out. */
  function Progress(writes: seq<WriteOutcome>, len: nat): (n: nat)
    ensures n <= len
    decreases |writes|
  {
    if len == 0 || writes == [] then 0
    else
      match writes[0]
      case Error => 0
      case Interrupted => Progress(writes[1..], len)
      case Wrote(k) =>
        var k' := if k < len then k else len;
        k' + Progress(writes[1..], len - k')
  }

  /** Calls without an error that take enough bytes get everything out. */
  lemma {:induction false} ProgressWhole(writes: seq<WriteOutcome>, len: nat)
    requires forall i :: 0 <= i < |writes| ==> writes[i] != Error
    requires Offered(writes) >= len
    ensures Progress(writes, len) == len
    decreases |writes|
  {
    if len > 0 && writes != [] {
      var n := if writes[0].Wrote? then writes[0].n else 0;
      ProgressWhole(writes[1..], if n < len then len - n else 0);
    }
  }

  // How many bytes the calls are ready to take in all.
  function Offered(writes: seq<WriteOutcome>): nat {
    if writes == [] then 0 else (if writes[0].Wrote? then writes[0].n else 0) + Offered(writes[1..])
  }

  // n more bytes of the buffer are written.
  lemma WroteOn(buf: Bytes, total: nat, n: nat, file: Bytes)
    requires total + n <= |buf|
    ensures buf[total..][n..] == buf[total + n..]
    ensures file + buf[..total] + buf[total..][..n] == file + buf[..total + n]
  {
  }

  lemma ProgressOn(call: WriteOutcome, calls: seq<WriteOutcome>, len: nat)
    requires len > 0 && call != Error
    ensures var n := if call.Wrote? then (if call.n < len then call.n else len) else 0;
      Progress([call] + calls, len) == n + Progress(calls, len - n)
  {
    assert ([call] + calls)[1..] == calls;
  }

  /** server.aof_fd's file, server.aof_buf and the fields that the flush keeps; policy and
      noFsyncOnRewrite are configuration. */
  class Aof {
    var file: Bytes
    var buf: Bytes
    var lastIncrSize: nat
    var currentSize: nat
    var lastWriteOk: bool
    var postponedStart: nat
    var delayedFsync: nat
    var fsyncOffset: nat
    var lastFsync: nat
    ghost var synced: nat   // an fsync that covers this many bytes of the file was issued
    var earlier: nat        // the size of the files before this one
    const policy: Policy
    const noFsyncOnRewrite: bool

    ghost predicate Valid()
      reads this
    {
      && lastIncrSize == |file|
      && currentSize == earlier + |file|
      && synced <= |file|
      && fsyncOffset <= currentSize
      && (fsyncOffset > earlier ==> fsyncOffset <= earlier + synced)
    }

    /** Everything that was ever fed to this file, in order. */
    ghost function Stream(): Bytes
      reads this
    {
      file + buf
    }

    /** A file with no bytes after files of this size, whose sum stays in aof_current_size. */
    constructor (policy: Policy, noFsyncOnRewrite: bool, earlier: nat)
      ensures Valid() && Stream() == "" && this.policy == policy && this.noFsyncOnRewrite == noFsyncOnRewrite
    {
      this.policy, this.noFsyncOnRewrite, this.earlier := policy, noFsyncOnRewrite, earlier;
      file, buf, lastIncrSize, currentSize := "", "", 0, earlier;
      lastWriteOk, postponedStart, delayedFsync, fsyncOffset, lastFsync, synced := true, 0, 0, 0, 0, 0;
    }

    /** openNewIncrAofForAppend on a server that has a file open. */
    method Reopen()
      requires Valid()
      modifies `file, `lastIncrSize, `earlier, `synced
      ensures Valid() && file == "" && currentSize == earlier
    {
      file, lastIncrSize, earlier, synced := "", 0, currentSize, 0;
    }

    /** The end of feedAppendOnlyFile. */
    method Append(bytes: Bytes)
      requires Valid()
      modifies `buf
      ensures Valid() && Stream() == old(Stream()) + bytes && buf == old(buf) + bytes
    {
      buf := buf + bytes;
      assert file + buf == old(file + buf) + bytes;
    }

    /** aofWrite: -1 when an error came before any byte, otherwise the bytes that were written. */
    method Write(writes: seq<WriteOutcome>) returns (nwritten: int)
      modifies `file
      ensures file == old(file) + buf[..Progress(writes, |buf|)]
      ensures nwritten == if buf != "" && Progress(writes, |buf|) == 0 then -1 else Progress(writes, |buf|)
    {
      var rest, calls, total := buf, writes, 0;
      while rest != ""
        invariant total + |rest| == |buf| && rest == buf[total..]
        invariant file == old(file) + buf[..total]
        invariant Progress(writes, |buf|) == total + Progress(calls, |rest|)
        decreases |calls|, |rest|
      {
        if calls == [] || calls[0] == Error {
          return if total != 0 then total else -1;
        }
        assert [calls[0]] + calls[1..] == calls;
        ProgressOn(calls[0], calls[1..], |rest|);
        if calls[0].Wrote? {
          var n := if calls[0].n < |rest| then calls[0].n else |rest|;
          WroteOn(buf, total, n, old(file));
          file := file + rest[..n];
          rest, total := rest[n..], total + n;
        }
        calls := calls[1..];
      }
      return total;
    }

    /** Nothing is written now: no bytes, or a background fsync that is given up to two seconds. */
    predicate Postpones(force: bool, env: Env)
      reads this
    {
      buf == "" || (policy == EverySec && !force && env.fsyncInProgress
                    && (postponedStart == 0 || env.now < postponedStart + 2))
    }

    /** How many bytes leave the buffer for the file. */
    ghost function Moved(force: bool, env: Env): (n: nat)
      reads this
      ensures n <= |buf|
    {
      var n := Progress(env.writes, |buf|);
      if Postpones(force, env) then 0
      else if n < |buf| && env.truncateOk then 0   // the short write is taken back
      else n
    }

    /** Nothing is lost or written twice, whatever write and ftruncate do. */
    method FlushAppendOnlyFile(force: bool, env: Env) returns (exited: bool)
      requires Valid()
      modifies this
      ensures file == old(file) + old(buf)[..old(Moved(force, env))]
      ensures !exited ==> Valid() && Stream() == old(Stream()) && buf == old(buf)[old(Moved(force, env))..]
      ensures !exited && !old(Postpones(force, env)) ==> (lastWriteOk <==> buf == "")
      ensures !exited && policy == Always && old(buf) != "" && !(noFsyncOnRewrite && env.childActive) ==>
        buf == "" && synced == |file|
      ensures
        var busy := policy == EverySec && !force && env.fsyncInProgress;
        var due := !busy || (old(postponedStart) != 0 && env.now >= old(postponedStart) + 2);
        && (due && old(Progress(env.writes, |buf|) == |buf|) ==>
             file == old(file) + old(buf) && (!exited ==> buf == "" && (old(buf) != "" ==> postponedStart == 0)))
        && (!due && old(buf) != "" ==>
             && !exited && file == old(file) && buf == old(buf)
             && postponedStart == if old(postponedStart) == 0 then env.now else old(postponedStart))
      ensures exited <==> old(policy == Always && buf != ""
        && (Progress(env.writes, |buf|) < |buf| || (!env.fsyncOk && !(noFsyncOnRewrite && env.childActive))))
    {
      exited := false;
      if buf == "" {
        if policy == EverySec && fsyncOffset != currentSize && env.now > lastFsync && !env.fsyncInProgress {
          exited := TryFsync(env);
        }
        return;
      }
      if policy == EverySec && !force && env.fsyncInProgress {
        if postponedStart == 0 {
          postponedStart := env.now;
          return;
        } else if env.now < postponedStart + 2 {
          return;
        }
        delayedFsync := delayedFsync + 1;
      }
      exited := WriteAndSync(env);
    }

    // From the write on.
    method WriteAndSync(env: Env) returns (exited: bool)
      requires Valid() && buf != ""
      modifies this
      ensures file == old(file) + old(buf)[..old(Moved(true, env))]
      ensures !exited ==> Valid() && buf == old(buf)[old(Moved(true, env))..] && (lastWriteOk <==> buf == "")
      ensures postponedStart == 0
      ensures !exited && policy == Always && !(noFsyncOnRewrite && env.childActive) ==> buf == "" && synced == |file|
      ensures
        var bad := old(Progress(env.writes, |buf|) < |buf|) || (!env.fsyncOk && !(noFsyncOnRewrite && env.childActive));
        exited <==> policy == Always && bad
    {
      var failed := WriteBuffer(env);
      if failed {
        return policy == Always;
      }
      exited := TryFsync(env);
    }

    /** The write and what follows an error of it. With the policy Always the caller exits then, and the
        buffer no longer matters. */
    method WriteBuffer(env: Env) returns (failed: bool)
      requires Valid() && buf != ""
      modifies `file, `buf, `postponedStart, `lastWriteOk, `currentSize, `lastIncrSize
      ensures postponedStart == 0 && (failed <==> old(Progress(env.writes, |buf|) < |buf|))
      ensures file == old(file) + old(buf)[..old(Moved(true, env))]
      ensures !(failed && policy == Always) ==>
        Valid() && buf == old(buf)[old(Moved(true, env))..] && (lastWriteOk <==> !failed)
    {
      var nwritten := Write(env.writes);
      postponedStart := 0;
      failed := nwritten != |buf|;
      if failed {
        if nwritten != -1 && env.truncateOk {
          file := file[..lastIncrSize];
          nwritten := -1;
        }
        if policy == Always {
          return;
        }
        lastWriteOk := false;
        if nwritten > 0 {
          currentSize, lastIncrSize := currentSize + nwritten, lastIncrSize + nwritten;
          buf := buf[nwritten..];
        }
        return;
      }
      lastWriteOk := true;
      currentSize, lastIncrSize := currentSize + nwritten, lastIncrSize + nwritten;
      buf := "";
    }

    /** The end of flushAppendOnlyFile. A background fsync covers the bytes that are in the file when it
        is submitted. */
    method TryFsync(env: Env) returns (exited: bool)
      requires Valid()
      modifies `fsyncOffset, `lastFsync, `synced
      ensures Valid() && old(synced) <= synced
      ensures exited <==> policy == Always && !env.fsyncOk && !(noFsyncOnRewrite && env.childActive)
      ensures !exited && policy == Always && !(noFsyncOnRewrite && env.childActive) ==> synced == |file|
    {
      if noFsyncOnRewrite && env.childActive {
        return false;
      }
      if policy == Always {
        if !env.fsyncOk {
          return true;
        }
        synced := |file|;
        fsyncOffset, lastFsync := currentSize, env.now;
      } else if policy == EverySec && env.now > lastFsync {
        if !env.fsyncInProgress {
          synced := |file|;
          fsyncOffset := currentSize;
        }
        lastFsync := env.now;
      }
      return false;
    }
  }
}
