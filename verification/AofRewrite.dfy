/** Rewriting the log: what the object writers of aof.c emit for one collection. */
module AofRewrite {
  import opened Equality
  import opened AofFormat
  import opened AofDataset

  // AOF_REWRITE_ITEMS_PER_CMD
  const PER_CMD := 64

  function Min(a: nat, b: nat): nat {
    if a < b then a else b
  }

  // ----- what is written, call by call

  /** One call of rioWriteBulkCount or of a rioWriteBulk function. */
  datatype Token = Count(n: nat) | Bulk(arg: Bytes)

  function TokenBytes(token: Token): Bytes {
    match token
    case Count(n) => Header('*', n)
    case Bulk(arg) => EncodeArg(arg)
  }

  function Written(tokens: seq<Token>): Bytes {
    if tokens == [] then "" else TokenBytes(tokens[0]) + Written(tokens[1..])
  }

  function Bulks(args: seq<Bytes>): (t: seq<Token>)
    ensures |t| == |args| && forall i :: 0 <= i < |t| ==> t[i] == Bulk(args[i])
  {
    seq(|args|, i requires 0 <= i < |args| => Bulk(args[i]))
  }

  function CmdTokens(cmd: Cmd): seq<Token> {
    [Count(|cmd|)] + Bulks(cmd)
  }

  function LogTokens(cmds: seq<Cmd>): seq<Token> {
    if cmds == [] then [] else CmdTokens(cmds[0]) + LogTokens(cmds[1..])
  }

  lemma {:induction false} WrittenAppend(a: seq<Token>, b: seq<Token>)
    ensures Written(a + b) == Written(a) + Written(b)
    decreases |a|
  {
    if a == [] {
      assert a + b == b;
    } else {
      assert (a + b)[1..] == a[1..] + b;
      WrittenAppend(a[1..], b);
    }
  }

  lemma {:induction false} WrittenBulks(args: seq<Bytes>)
    ensures Written(Bulks(args)) == EncodeArgs(args)
    decreases |args|
  {
    if args != [] {
      assert Bulks(args)[1..] == Bulks(args[1..]);
      WrittenBulks(args[1..]);
    }
  }

  /** A header and as many arguments as it announces are one command of the log. */
  lemma {:induction false} WrittenLog(cmds: seq<Cmd>)
    ensures Written(LogTokens(cmds)) == Encode(cmds)
    decreases |cmds|
  {
    if cmds != [] {
      WrittenAppend(CmdTokens(cmds[0]), LogTokens(cmds[1..]));
      assert CmdTokens(cmds[0])[1..] == Bulks(cmds[0]);
      WrittenBulks(cmds[0]);
      WrittenLog(cmds[1..]);
    }
  }

  lemma {:induction false} LogTokensAppend(a: seq<Cmd>, b: seq<Cmd>)
    ensures LogTokens(a + b) == LogTokens(a) + LogTokens(b)
    decreases |a|
  {
    if a == [] {
      assert a + b == b;
    } else {
      assert (a + b)[1..] == a[1..] + b;
      LogTokensAppend(a[1..], b);
    }
  }

  // ----- chunks

  /** One command for every PER_CMD items, the last one for what is left. */
  function Chunks(name: Bytes, key: Bytes, items: seq<Item>): seq<Cmd>
    decreases |items|
  {
    if items == [] then []
    else
      var k := Min(PER_CMD, |items|);
      [[name, key] + Flatten(items[..k])] + Chunks(name, key, items[k..])
  }

  // The rest of a command that ends before item j, and the commands after it.
  ghost function Rest(name: Bytes, key: Bytes, items: seq<Item>, i: nat, j: nat): seq<Token>
    requires i <= j <= |items|
  {
    Bulks(Flatten(items[i..j])) + LogTokens(Chunks(name, key, items[j..]))
  }

  // A command starts with a header that announces exactly the arguments that follow.
  lemma ChunkStart(name: Bytes, key: Bytes, items: seq<Item>, w: nat, i: nat)
    requires i < |items| && forall i :: 0 <= i < |items| ==> |items[i]| == w
    ensures var k := Min(PER_CMD, |items| - i);
      Same(LogTokens(Chunks(name, key, items[i..])),
           [Count(2 + k * w), Bulk(name), Bulk(key)] + Rest(name, key, items, i, i + k))
  {
    var k := Min(PER_CMD, |items| - i);
    var args, more := Flatten(items[i..i + k]), Chunks(name, key, items[i + k..]);
    NextChunk(name, key, items, i);
    FlattenWidth(items[i..i + k], w);
    FirstTokens(name, key, args, more);
    Move([Count(2 + k * w), Bulk(name), Bulk(key)], Bulks(args), LogTokens(more));
  }

  lemma NextChunk(name: Bytes, key: Bytes, items: seq<Item>, i: nat)
    requires i < |items|
    ensures var k := Min(PER_CMD, |items| - i);
      Chunks(name, key, items[i..]) == [[name, key] + Flatten(items[i..i + k])] + Chunks(name, key, items[i + k..])
  {
    var k := Min(PER_CMD, |items| - i);
    assert items[i..][..k] == items[i..i + k] && items[i..][k..] == items[i + k..];
  }

  lemma FirstTokens(name: Bytes, key: Bytes, args: seq<Bytes>, more: seq<Cmd>)
    ensures LogTokens([[name, key] + args] + more)
         == [Count(2 + |args|), Bulk(name), Bulk(key)] + Bulks(args) + LogTokens(more)
  {
    var cmds := [[name, key] + args] + more;
    assert cmds[1..] == more;
    assert CmdTokens(cmds[0]) == [Count(2 + |args|), Bulk(name), Bulk(key)] + Bulks(args);
  }

  lemma {:induction false} FlattenWidth(items: seq<Item>, w: nat)
    requires forall i :: 0 <= i < |items| ==> |items[i]| == w
    ensures |Flatten(items)| == |items| * w
    decreases |items|
  {
    if items != [] {
      FlattenWidth(items[1..], w);
    }
  }

  // Writing one item of the current command.
  lemma ItemWritten(name: Bytes, key: Bytes, items: seq<Item>, i: nat, j: nat)
    requires i < j <= |items|
    ensures Same(Rest(name, key, items, i, j), Bulks(items[i]) + Rest(name, key, items, i + 1, j))
  {
    assert items[i..j][1..] == items[i + 1..j];
    assert Bulks(items[i] + Flatten(items[i + 1..j])) == Bulks(items[i]) + Bulks(Flatten(items[i + 1..j]));
    assert Rest(name, key, items, i, j) == Bulks(items[i]) + Rest(name, key, items, i + 1, j);
  }

  // A full command leaves only the commands after it.
  lemma ChunkDone(name: Bytes, key: Bytes, items: seq<Item>, j: nat)
    requires j <= |items|
    ensures Same(Rest(name, key, items, j, j), LogTokens(Chunks(name, key, items[j..])))
  {
    assert items[j..j] == [];
    assert Rest(name, key, items, j, j) == LogTokens(Chunks(name, key, items[j..]));
  }

  // Written so far and still to write, when the next piece is written.
  lemma Move(out: seq<Token>, piece: seq<Token>, rest: seq<Token>)
    ensures out + (piece + rest) == (out + piece) + rest
  {
  }

  // The header of the next command is written.
  lemma HeaderStep(
      name: Bytes, key: Bytes, items: seq<Item>, w: nat, i: nat, k: nat, header: seq<Token>, out: seq<Token>,
      whole: seq<Token>)
    requires i < |items| && (forall i :: 0 <= i < |items| ==> |items[i]| == w)
    requires k == Min(PER_CMD, |items| - i) && header == [Count(2 + k * w), Bulk(name), Bulk(key)]
    requires Same(out + Rest(name, key, items, i, i), whole)
    ensures Same(out + header + Rest(name, key, items, i, i + k), whole)
  {
    HeaderFirst(name, key, items, w, i, k, header);
    Glue(out, Rest(name, key, items, i, i), header, Rest(name, key, items, i, i + k), whole);
  }

  lemma HeaderFirst(name: Bytes, key: Bytes, items: seq<Item>, w: nat, i: nat, k: nat, header: seq<Token>)
    requires i < |items| && (forall i :: 0 <= i < |items| ==> |items[i]| == w)
    requires k == Min(PER_CMD, |items| - i) && header == [Count(2 + k * w), Bulk(name), Bulk(key)]
    ensures Same(Rest(name, key, items, i, i), header + Rest(name, key, items, i, i + k))
  {
    ChunkDone(name, key, items, i);
    ChunkStart(name, key, items, w, i);
  }

  // Written so far, when what was to be written starts with this piece.
  lemma Glue(out: seq<Token>, todo: seq<Token>, piece: seq<Token>, rest: seq<Token>, whole: seq<Token>)
    requires Same(out + todo, whole) && Same(todo, piece + rest)
    ensures Same(out + piece + rest, whole)
  {
    Move(out, piece, rest);
  }

  // The next item of a command is written.
  lemma ItemStep(name: Bytes, key: Bytes, items: seq<Item>, i: nat, j: nat, out: seq<Token>, whole: seq<Token>)
    requires i < j <= |items| && Same(out + Rest(name, key, items, i, j), whole)
    ensures Same(out + Bulks(items[i]) + Rest(name, key, items, i + 1, j), whole)
  {
    ItemWritten(name, key, items, i, j);
    Glue(out, Rest(name, key, items, i, j), Bulks(items[i]), Rest(name, key, items, i + 1, j), whole);
  }

  lemma NothingWritten(name: Bytes, key: Bytes, items: seq<Item>)
    ensures Same([] + Rest(name, key, items, 0, 0), LogTokens(Chunks(name, key, items)))
  {
    ChunkDone(name, key, items, 0);
    assert items[0..] == items;
  }

  lemma AllWritten(name: Bytes, key: Bytes, items: seq<Item>, j: nat, out: seq<Token>, whole: seq<Token>)
    requires j == |items| && Same(out + Rest(name, key, items, j, j), whole)
    ensures out == whole
  {
    ChunkDone(name, key, items, j);
    assert items[j..] == [];
  }

  /** rewriteListObject, rewriteSetObject, rewriteSortedSetObject and rewriteHashObject: the same loop
      over items of w arguments each, with a header whenever a command starts. */
  method RewriteItems(name: Bytes, key: Bytes, items: seq<Item>, w: nat) returns (out: seq<Token>)
    requires forall i :: 0 <= i < |items| ==> |items[i]| == w
    ensures out == LogTokens(Chunks(name, key, items))
  {
    out := [];
    var count, left := 0, |items|;
    var i := 0;
    ghost var whole := LogTokens(Chunks(name, key, items));
    ghost var j := 0;   // where the current command ends
    NothingWritten(name, key, items);
    while i < |items|
      invariant 0 <= i <= j <= |items| && left == |items| - i && 0 <= count < PER_CMD
      invariant j == if count == 0 then i else Min(|items|, i + PER_CMD - count)
      invariant Same(out + Rest(name, key, items, i, j), whole)
    {
      if count == 0 {
        var cmdItems := if left > PER_CMD then PER_CMD else left;
        var header := [Count(2 + cmdItems * w), Bulk(name), Bulk(key)];
        HeaderStep(name, key, items, w, i, cmdItems, header, out, whole);
        j := i + cmdItems;
        out := out + header;
      }
      ItemStep(name, key, items, i, j, out, whole);
      out := out + Bulks(items[i]);
      count := count + 1;
      if count == PER_CMD {
        count := 0;
      }
      left := left - 1;
      i := i + 1;
    }
    AllWritten(name, key, items, i, out, whole);
  }
}
