/** A dataset of strings, lists, sets, sorted sets and hashes with expiry times, and what the commands
    that a rewrite emits do to it. */
module AofDataset {
  import opened Options
  import opened AofFormat

  datatype Kind = ListKind | SetKind | ZsetKind | HashKind

  /** Collections are told apart by their kind. A list keeps its elements in order; a set its members;
      a sorted set maps members to scores (in their printed form), a hash fields to values. */
  datatype Value =
    | Str(text: Bytes)
    | List(items: seq<Bytes>)
    | Set(members: set<Bytes>)
    | Zset(scores: map<Bytes, Bytes>)
    | Hash(fields: map<Bytes, Bytes>)

  /** A value with its expiry time, if it has one. */
  datatype Entry = Entry(value: Value, expire: Option<nat>)

  type Db = map<Bytes, Entry>

  datatype Server = Server(dbs: seq<Db>, selected: nat)

  function EmptyServer(dbnum: nat): Server {
    Server(seq(dbnum, _ => map[]), 0)
  }

  // ----- items of a collection

  // How many arguments one item takes.
  function Width(kind: Kind): nat {
    if kind == ListKind || kind == SetKind then 1 else 2
  }

  function CommandName(kind: Kind): Bytes {
    match kind
    case ListKind => "RPUSH"
    case SetKind => "SADD"
    case ZsetKind => "ZADD"
    case HashKind => "HMSET"
  }

  function KindNamed(name: Bytes): Option<Kind> {
    if name == "RPUSH" then Some(ListKind)
    else if name == "SADD" then Some(SetKind)
    else if name == "ZADD" then Some(ZsetKind)
    else if name == "HMSET" then Some(HashKind)
    else None
  }

  lemma NamesOfKinds(kind: Kind)
    ensures KindNamed(CommandName(kind)) == Some(kind) && CommandName(kind) != "SET" && CommandName(kind) != "SELECT"
  {
  }

  predicate Has(v: Value, kind: Kind) {
    match kind
    case ListKind => v.List?
    case SetKind => v.Set?
    case ZsetKind => v.Zset?
    case HashKind => v.Hash?
  }

  function EmptyValue(kind: Kind): (v: Value)
    ensures Has(v, kind)
  {
    match kind
    case ListKind => List([])
    case SetKind => Set({})
    case ZsetKind => Zset(map[])
    case HashKind => Hash(map[])
  }

  type Item = seq<Bytes>

  /** Adding one item; ZADD takes the score before the member. */
  function AddItem(v: Value, kind: Kind, item: Item): (v': Value)
    requires Has(v, kind) && |item| == Width(kind)
    ensures Has(v', kind)
  {
    match kind
    case ListKind => List(v.items + [item[0]])
    case SetKind => Set(v.members + {item[0]})
    case ZsetKind => Zset(v.scores[item[1] := item[0]])
    case HashKind => Hash(v.fields[item[0] := item[1]])
  }

  predicate AllWide(items: seq<Item>, kind: Kind) {
    forall i :: 0 <= i < |items| ==> |items[i]| == Width(kind)
  }

  function AddItems(v: Value, kind: Kind, items: seq<Item>): (v': Value)
    requires Has(v, kind) && AllWide(items, kind)
    ensures Has(v', kind)
    decreases |items|
  {
    if items == [] then v else AddItems(AddItem(v, kind, items[0]), kind, items[1..])
  }

  // Arguments in groups of w.
  function Group(args: seq<Bytes>, w: nat): (items: seq<Item>)
    requires w > 0
    ensures forall i :: 0 <= i < |items| ==> |items[i]| == w
    decreases |args|
  {
    if |args| < w then [] else [args[..w]] + Group(args[w..], w)
  }

  function Flatten(items: seq<Item>): seq<Bytes> {
    if items == [] then [] else items[0] + Flatten(items[1..])
  }

  // ----- executing commands

  /** RPUSH, SADD, ZADD and HMSET: items go to the value that is there, or to a new one. */
  function AddToKey(db: Db, kind: Kind, key: Bytes, items: seq<Item>): Db
    requires AllWide(items, kind)
  {
    if key !in db then db[key := Entry(AddItems(EmptyValue(kind), kind, items), None)]
    else if !Has(db[key].value, kind) then db
    else db[key := db[key].(value := AddItems(db[key].value, kind, items))]
  }

  function CollectionCommand(db: Db, kind: Kind, args: seq<Bytes>): Db {
    if |args| < 1 + Width(kind) || (Width(kind) == 2 && |args| % 2 == 0) then db
    else AddToKey(db, kind, args[0], Group(args[1..], Width(kind)))
  }

  /** The effect of a command on the selected database; anything else has none. */
  function InDb(db: Db, cmd: Cmd): Db
    requires cmd != []
  {
    if cmd[0] == "SET" && |cmd| == 3 then db[cmd[1] := Entry(Str(cmd[2]), None)]
    else if KindNamed(cmd[0]).Some? then CollectionCommand(db, KindNamed(cmd[0]).value, cmd[1..])
    else if cmd[0] == "PEXPIREAT" && |cmd| == 3 && cmd[1] in db && ParseInt(cmd[2]) >= 0 then
      db[cmd[1] := db[cmd[1]].(expire := Some(ParseInt(cmd[2])))]
    else db
  }

  function Exec(s: Server, cmd: Cmd): Server {
    if cmd == [] then s
    else if cmd[0] == "SELECT" && |cmd| == 2 then
      var j := ParseInt(cmd[1]);
      if 0 <= j < |s.dbs| then s.(selected := j) else s
    else if s.selected < |s.dbs| then s.(dbs := s.dbs[s.selected := InDb(s.dbs[s.selected], cmd)])
    else s
  }

  function ExecAll(s: Server, cmds: seq<Cmd>): Server
    decreases |cmds|
  {
    if cmds == [] then s else ExecAll(Exec(s, cmds[0]), cmds[1..])
  }

  lemma {:induction false} ExecAppend(s: Server, a: seq<Cmd>, b: seq<Cmd>)
    ensures ExecAll(s, a + b) == ExecAll(ExecAll(s, a), b)
    decreases |a|
  {
    if a == [] {
      assert a + b == b;
    } else {
      assert (a + b)[1..] == a[1..] + b;
      ExecAppend(Exec(s, a[0]), a[1..], b);
    }
  }

  lemma {:induction false} AddItemsAppend(v: Value, kind: Kind, a: seq<Item>, b: seq<Item>)
    requires Has(v, kind) && AllWide(a, kind) && AllWide(b, kind)
    ensures AllWide(a + b, kind) && AddItems(v, kind, a + b) == AddItems(AddItems(v, kind, a), kind, b)
    decreases |a|
  {
    if a == [] {
      assert a + b == b;
    } else {
      assert (a + b)[1..] == a[1..] + b;
      AddItemsAppend(AddItem(v, kind, a[0]), kind, a[1..], b);
    }
  }

  lemma {:induction false} FlattenLength(items: seq<Item>, kind: Kind)
    requires AllWide(items, kind)
    ensures |Flatten(items)| == if Width(kind) == 1 then |items| else 2 * |items|
    decreases |items|
  {
    if items != [] {
      FlattenLength(items[1..], kind);
    }
  }

  lemma {:induction false} GroupFlatten(items: seq<Item>, w: nat)
    requires w > 0 && forall i :: 0 <= i < |items| ==> |items[i]| == w
    ensures Group(Flatten(items), w) == items
    decreases |items|
  {
    if items != [] {
      GroupFlatten(items[1..], w);
      assert Flatten(items)[..w] == items[0] && Flatten(items)[w..] == Flatten(items[1..]);
    }
  }

  /** A collection command with its items written out adds exactly these items. */
  lemma CollectionExec(db: Db, kind: Kind, key: Bytes, items: seq<Item>)
    requires AllWide(items, kind) && items != []
    ensures InDb(db, [CommandName(kind), key] + Flatten(items)) == AddToKey(db, kind, key, items)
  {
    var cmd := [CommandName(kind), key] + Flatten(items);
    NamesOfKinds(kind);
    GroupFlatten(items, Width(kind));
    FlattenLength(items, kind);
    assert cmd[1..][1..] == Flatten(items);
    CommandExec(db, kind, cmd, items);
  }

  lemma CommandExec(db: Db, kind: Kind, cmd: Cmd, items: seq<Item>)
    requires |cmd| >= 2 + Width(kind) && KindNamed(cmd[0]) == Some(kind) && cmd[0] != "SET"
    requires Width(kind) == 2 ==> |cmd| % 2 == 0
    requires AllWide(items, kind) && Group(cmd[1..][1..], Width(kind)) == items
    ensures InDb(db, cmd) == AddToKey(db, kind, cmd[1], items)
  {
  }
}
