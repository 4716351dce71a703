/** rewriteAppendOnlyFileRio: the commands it emits rebuild exactly the dataset they were made from. */
module AofRebuild {
  import opened Options
  import opened AofFormat
  import opened AofDataset
  import opened AofRewrite
  import opened AofParse

  // ----- commands within one database

  // Not SELECT, so that it stays within the database.
  predicate Local(cmd: Cmd) {
    cmd != [] && cmd[0] != "SELECT"
  }

  ghost predicate AllLocal(cmds: seq<Cmd>) {
    forall i :: 0 <= i < |cmds| ==> Local(cmds[i])
  }

  function InDbAll(db: Db, cmds: seq<Cmd>): Db
    requires AllLocal(cmds)
    decreases |cmds|
  {
    if cmds == [] then db else InDbAll(InDb(db, cmds[0]), cmds[1..])
  }

  lemma {:induction false} InDbAppend(db: Db, a: seq<Cmd>, b: seq<Cmd>)
    requires AllLocal(a) && AllLocal(b)
    ensures AllLocal(a + b) && InDbAll(db, a + b) == InDbAll(InDbAll(db, a), b)
    decreases |a|
  {
    if a == [] {
      assert a + b == b;
    } else {
      assert (a + b)[1..] == a[1..] + b;
      InDbAppend(InDb(db, a[0]), a[1..], b);
    }
  }

  lemma {:induction false} LocalExec(s: Server, cmds: seq<Cmd>)
    requires AllLocal(cmds) && s.selected < |s.dbs|
    ensures ExecAll(s, cmds) == s.(dbs := s.dbs[s.selected := InDbAll(s.dbs[s.selected], cmds)])
    decreases |cmds|
  {
    if cmds == [] {
      assert s.dbs[s.selected := s.dbs[s.selected]] == s.dbs;
    } else {
      var s1 := s.(dbs := s.dbs[s.selected := InDb(s.dbs[s.selected], cmds[0])]);
      assert Exec(s, cmds[0]) == s1;
      LocalExec(s1, cmds[1..]);
      assert s1.dbs[s.selected := InDbAll(s1.dbs[s.selected], cmds[1..])]
          == s.dbs[s.selected := InDbAll(s1.dbs[s.selected], cmds[1..])];
    }
  }

  // ----- one key

  lemma AddToKeyTwice(db: Db, kind: Kind, key: Bytes, a: seq<Item>, b: seq<Item>)
    requires AllWide(a, kind) && AllWide(b, kind)
    ensures AllWide(a + b, kind)
    ensures AddToKey(AddToKey(db, kind, key, a), kind, key, b) == AddToKey(db, kind, key, a + b)
  {
    if key !in db {
      AddItemsAppend(EmptyValue(kind), kind, a, b);
    } else if Has(db[key].value, kind) {
      AddItemsAppend(db[key].value, kind, a, b);
    }
  }

  lemma NameLocal(kind: Kind, key: Bytes, args: seq<Bytes>)
    ensures Local([CommandName(kind), key] + args)
  {
    NamesOfKinds(kind);
  }

  /** However many commands a collection is cut into, together they add all its items in order. */
  lemma {:induction false} ChunksExec(db: Db, kind: Kind, key: Bytes, items: seq<Item>)
    requires AllWide(items, kind) && items != []
    ensures var cmds := Chunks(CommandName(kind), key, items);
      AllLocal(cmds) && InDbAll(db, cmds) == AddToKey(db, kind, key, items)
    decreases |items|
  {
    var k := Min(PER_CMD, |items|);
    var first, rest := items[..k], items[k..];
    CollectionExec(db, kind, key, first);
    NameLocal(kind, key, Flatten(first));
    var cmd, more := [CommandName(kind), key] + Flatten(first), Chunks(CommandName(kind), key, rest);
    if rest == [] {
      assert first == items;
    } else {
      ChunksExec(AddToKey(db, kind, key, first), kind, key, rest);
      assert first + rest == items;
      AddToKeyTwice(db, kind, key, first, rest);
    }
    assert ([cmd] + more)[1..] == more;
  }

  predicate IsCollection(v: Value) {
    !v.Str?
  }

  function KindOf(v: Value): (kind: Kind)
    requires IsCollection(v)
    ensures Has(v, kind)
  {
    match v
    case List(_) => ListKind
    case Set(_) => SetKind
    case Zset(_) => ZsetKind
    case Hash(_) => HashKind
  }

  /** The server never keeps an empty collection. */
  predicate NonEmpty(v: Value) {
    match v
    case Str(_) => true
    case List(items) => items != []
    case Set(members) => members != {}
    case Zset(scores) => scores != map[]
    case Hash(fields) => fields != map[]
  }

  // Items in an order in which an iterator may return them.
  ghost predicate Enumerates(v: Value, items: seq<Item>) {
    IsCollection(v) && AllWide(items, KindOf(v)) && AddItems(EmptyValue(KindOf(v)), KindOf(v), items) == v
  }

  // An item of the collection itself.
  predicate Own(v: Value, item: Item) {
    match v
    case Str(_) => false
    case List(items) => |item| == 1 && item[0] in items
    case Set(members) => |item| == 1 && item[0] in members
    case Zset(scores) => |item| == 2 && item[1] in scores && scores[item[1]] == item[0]
    case Hash(fields) => |item| == 2 && item[0] in fields && fields[item[0]] == item[1]
  }

  ghost predicate AllOwn(v: Value, items: seq<Item>) {
    forall i :: 0 <= i < |items| ==> Own(v, items[i])
  }

  function ValueCmds(key: Bytes, v: Value, items: seq<Item>): seq<Cmd> {
    if v.Str? then [["SET", key, v.text]] else Chunks(CommandName(KindOf(v)), key, items)
  }

  function ExpireCmds(key: Bytes, expire: Option<nat>): seq<Cmd> {
    if expire.None? then [] else [["PEXPIREAT", key, Digits(expire.value)]]
  }

  lemma ValueRebuilt(db: Db, key: Bytes, v: Value, items: seq<Item>)
    requires key !in db && NonEmpty(v) && (IsCollection(v) ==> Enumerates(v, items))
    ensures AllLocal(ValueCmds(key, v, items))
    ensures InDbAll(db, ValueCmds(key, v, items)) == db[key := Entry(v, None)]
  {
    if IsCollection(v) {
      assert items != [];
      ChunksExec(db, KindOf(v), key, items);
    } else {
      SetExec(db, key, v.text);
    }
  }

  lemma SetExec(db: Db, key: Bytes, text: Bytes)
    ensures Local(["SET", key, text]) && InDb(db, ["SET", key, text]) == db[key := Entry(Str(text), None)]
  {
  }

  lemma ExpireExec(db: Db, key: Bytes, t: nat)
    requires key in db
    ensures var cmd := ["PEXPIREAT", key, Digits(t)];
      Local(cmd) && InDb(db, cmd) == db[key := db[key].(expire := Some(t))]
  {
    ParseHeader(t, "");
    assert Digits(t) + "" == Digits(t);
  }

  /** The commands for one key put back its value and its expiry time and touch no other key. */
  lemma KeyRebuilt(db: Db, key: Bytes, entry: Entry, items: seq<Item>)
    requires key !in db && NonEmpty(entry.value) && (IsCollection(entry.value) ==> Enumerates(entry.value, items))
    ensures var cmds := ValueCmds(key, entry.value, items) + ExpireCmds(key, entry.expire);
      AllLocal(cmds) && InDbAll(db, cmds) == db[key := entry]
  {
    var a, b := ValueCmds(key, entry.value, items), ExpireCmds(key, entry.expire);
    ValueRebuilt(db, key, entry.value, items);
    var db1 := db[key := Entry(entry.value, None)];
    if entry.expire.Some? {
      ExpireExec(db1, key, entry.expire.value);
      assert b[1..] == [];
    }
    InDbAppend(db, a, b);
  }

  // ----- iterators

  /** The iterators of a list, a set, a sorted set and a hash; only a list has an order of its own. */
  method IterateItems(v: Value) returns (items: seq<Item>)
    requires IsCollection(v)
    ensures Enumerates(v, items) && AllOwn(v, items)
  {
    match v {
      case List(elements) => items := IterateList(elements);
      case Set(members) => items := IterateSet(members);
      case Zset(scores) => items := IterateMap(ZsetKind, scores);
      case Hash(fields) => items := IterateMap(HashKind, fields);
    }
  }

  method IterateList(elements: seq<Bytes>) returns (items: seq<Item>)
    ensures Enumerates(List(elements), items) && AllOwn(List(elements), items)
  {
    items := [];
    for i := 0 to |elements|
      invariant AllWide(items, ListKind) && AddItems(List([]), ListKind, items) == List(elements[..i])
      invariant AllOwn(List(elements), items)
    {
      AddItemsAppend(List([]), ListKind, items, [[elements[i]]]);
      assert elements[..i + 1] == elements[..i] + [elements[i]];
      items := items + [[elements[i]]];
    }
    assert elements[..|elements|] == elements;
  }

  lemma MemberAdded(members: set<Bytes>, rest: set<Bytes>, m: Bytes, items: seq<Item>)
    requires m in rest && rest <= members
    requires AllWide(items, SetKind) && AddItems(Set({}), SetKind, items) == Set(members - rest)
    ensures AllWide(items + [[m]], SetKind)
    ensures AddItems(Set({}), SetKind, items + [[m]]) == Set(members - (rest - {m}))
    ensures AllOwn(Set(members), items) ==> AllOwn(Set(members), items + [[m]])
  {
    AddItemsAppend(Set({}), SetKind, items, [[m]]);
    assert members - rest + {m} == members - (rest - {m});
  }

  method IterateSet(members: set<Bytes>) returns (items: seq<Item>)
    ensures Enumerates(Set(members), items) && AllOwn(Set(members), items)
  {
    items := [];
    var rest := members;
    while rest != {}
      invariant rest <= members
      invariant AllWide(items, SetKind) && AddItems(Set({}), SetKind, items) == Set(members - rest)
      invariant AllOwn(Set(members), items)
      decreases |rest|
    {
      var m :| m in rest;
      MemberAdded(members, rest, m, items);
      items := items + [[m]];
      rest := rest - {m};
    }
    assert members - {} == members;
  }

  // The score goes before the member, the field before its value.
  function Pair(kind: Kind, k: Bytes, v: Bytes): Item {
    if kind == ZsetKind then [v, k] else [k, v]
  }

  ghost function Mapping(kind: Kind, m: map<Bytes, Bytes>): Value {
    if kind == ZsetKind then Zset(m) else Hash(m)
  }

  lemma PairAdded(kind: Kind, m: map<Bytes, Bytes>, rest: set<Bytes>, k: Bytes, items: seq<Item>)
    requires (kind == ZsetKind || kind == HashKind) && k in rest && rest <= m.Keys
    requires AllWide(items, kind) && AddItems(EmptyValue(kind), kind, items) == Mapping(kind, m - rest)
    ensures AllWide(items + [Pair(kind, k, m[k])], kind)
    ensures AddItems(EmptyValue(kind), kind, items + [Pair(kind, k, m[k])]) == Mapping(kind, m - (rest - {k}))
    ensures AllOwn(Mapping(kind, m), items) ==> AllOwn(Mapping(kind, m), items + [Pair(kind, k, m[k])])
  {
    AddItemsAppend(EmptyValue(kind), kind, items, [Pair(kind, k, m[k])]);
    assert (m - rest)[k := m[k]] == m - (rest - {k});
  }

  method IterateMap(kind: Kind, m: map<Bytes, Bytes>) returns (items: seq<Item>)
    requires kind == ZsetKind || kind == HashKind
    ensures Enumerates(Mapping(kind, m), items) && AllOwn(Mapping(kind, m), items)
  {
    items := [];
    var rest := m.Keys;
    while rest != {}
      invariant rest <= m.Keys
      invariant AllWide(items, kind) && AddItems(EmptyValue(kind), kind, items) == Mapping(kind, m - rest)
      invariant AllOwn(Mapping(kind, m), items)
      decreases |rest|
    {
      var k :| k in rest;
      PairAdded(kind, m, rest, k, items);
      items := items + [Pair(kind, k, m[k])];
      rest := rest - {k};
    }
    assert m - {} == m;
  }

  // ----- the whole dataset

  ghost predicate ValidDb(db: Db) {
    forall k :: k in db ==> NonEmpty(db[k].value)
  }

  // ----- which commands are written

  /** The strings of a value. */
  ghost predicate InValue(v: Value, b: Bytes) {
    match v
    case Str(text) => b == text
    case List(items) => b in items
    case Set(members) => b in members
    case Zset(scores) => exists k :: k in scores && (b == k || b == scores[k])
    case Hash(fields) => exists k :: k in fields && (b == k || b == fields[k])
  }

  /** The strings that are written for a key: itself, those of its value, and its expiry time. */
  ghost predicate InEntry(key: Bytes, entry: Entry, b: Bytes) {
    b == key || InValue(entry.value, b) || (entry.expire.Some? && b == Digits(entry.expire.value))
  }

  const KEY_COMMANDS: seq<Bytes> := ["SET", "RPUSH", "SADD", "ZADD", "HMSET", "PEXPIREAT"]

  /** A command with at most 64 items, each of at most two arguments, all taken from the key. */
  ghost predicate KeyCommand(key: Bytes, entry: Entry, cmd: Cmd) {
    && 2 <= |cmd| <= 2 + 2 * PER_CMD && cmd[0] in KEY_COMMANDS
    && forall i :: 1 <= i < |cmd| ==> InEntry(key, entry, cmd[i])
  }

  ghost predicate KeyCommands(key: Bytes, entry: Entry, cmds: seq<Cmd>) {
    forall i :: 0 <= i < |cmds| ==> KeyCommand(key, entry, cmds[i])
  }

  lemma OwnStrings(v: Value, item: Item)
    requires Own(v, item)
    ensures |item| <= 2 && forall i :: 0 <= i < |item| ==> InValue(v, item[i])
  {
  }

  lemma {:induction false} FlattenStrings(v: Value, items: seq<Item>)
    requires AllOwn(v, items)
    ensures |Flatten(items)| <= 2 * |items| && forall i :: 0 <= i < |Flatten(items)| ==> InValue(v, Flatten(items)[i])
    decreases |items|
  {
    if items != [] {
      OwnStrings(v, items[0]);
      FlattenStrings(v, items[1..]);
    }
  }

  lemma ChunkCommand(key: Bytes, entry: Entry, name: Bytes, args: seq<Bytes>)
    requires name in KEY_COMMANDS && |args| <= 2 * PER_CMD
    requires forall i :: 0 <= i < |args| ==> InValue(entry.value, args[i])
    ensures KeyCommand(key, entry, [name, key] + args)
  {
    var cmd := [name, key] + args;
    assert forall i :: 2 <= i < |cmd| ==> cmd[i] == args[i - 2];
  }

  lemma {:induction false} ChunkCommands(key: Bytes, entry: Entry, name: Bytes, items: seq<Item>)
    requires name in KEY_COMMANDS && AllOwn(entry.value, items)
    ensures KeyCommands(key, entry, Chunks(name, key, items))
    decreases |items|
  {
    if items != [] {
      var k := Min(PER_CMD, |items|);
      FlattenStrings(entry.value, items[..k]);
      ChunkCommand(key, entry, name, Flatten(items[..k]));
      ChunkCommands(key, entry, name, items[k..]);
    }
  }

  lemma EntryCommands(key: Bytes, entry: Entry, items: seq<Item>)
    requires IsCollection(entry.value) ==> AllOwn(entry.value, items)
    ensures KeyCommands(key, entry, ValueCmds(key, entry.value, items) + ExpireCmds(key, entry.expire))
  {
    if IsCollection(entry.value) {
      KindCommand(KindOf(entry.value));
      ChunkCommands(key, entry, CommandName(KindOf(entry.value)), items);
    } else {
      assert "SET" == KEY_COMMANDS[0];
    }
    assert "PEXPIREAT" == KEY_COMMANDS[5];
  }

  lemma KindCommand(kind: Kind)
    ensures CommandName(kind) in KEY_COMMANDS
  {
    assert KEY_COMMANDS[1] == "RPUSH" && KEY_COMMANDS[2] == "SADD";
    assert KEY_COMMANDS[3] == "ZADD" && KEY_COMMANDS[4] == "HMSET";
  }

  ghost predicate DbCommand(db: Db, cmd: Cmd) {
    exists key :: key in db && KeyCommand(key, db[key], cmd)
  }

  function Select(j: nat): Cmd {
    ["SELECT", Digits(j)]
  }

  /** A command that a rewrite of these databases can write. */
  ghost predicate RewriteCommand(dbs: seq<Db>, cmd: Cmd) {
    || (exists j :: 0 <= j < |dbs| && cmd == Select(j))
    || (exists j :: 0 <= j < |dbs| && DbCommand(dbs[j], cmd))
  }

  // ----- writing the dataset

  method RewriteValue(key: Bytes, v: Value) returns (out: seq<Token>, ghost items: seq<Item>)
    ensures out == LogTokens(ValueCmds(key, v, items))
    ensures IsCollection(v) ==> Enumerates(v, items) && AllOwn(v, items)
  {
    items := [];
    if v.Str? {
      OneCommand(["SET", key, v.text]);
      out := [Count(3), Bulk("SET"), Bulk(key), Bulk(v.text)];
    } else {
      var all := IterateItems(v);
      items := all;
      var kind := KindOf(v);
      out := RewriteItems(CommandName(kind), key, all, Width(kind));
    }
  }

  method RewriteKey(key: Bytes, entry: Entry) returns (out: seq<Token>, ghost cmds: seq<Cmd>)
    requires NonEmpty(entry.value)
    ensures out == LogTokens(cmds) && AllLocal(cmds) && KeyCommands(key, entry, cmds)
    ensures forall db: Db :: key !in db ==> InDbAll(db, cmds) == db[key := entry]
  {
    ghost var items;
    out, items := RewriteValue(key, entry.value);
    ghost var a, b := ValueCmds(key, entry.value, items), ExpireCmds(key, entry.expire);
    LogTokensAppend(a, b);
    EntryCommands(key, entry, items);
    cmds := a + b;
    if entry.expire.Some? {
      OneCommand(["PEXPIREAT", key, Digits(entry.expire.value)]);
      out := out + [Count(3), Bulk("PEXPIREAT"), Bulk(key), Bulk(Digits(entry.expire.value))];
    }
    KeyRebuiltAnywhere(key, entry, items);
  }

  lemma KeyRebuiltAnywhere(key: Bytes, entry: Entry, items: seq<Item>)
    requires NonEmpty(entry.value) && (IsCollection(entry.value) ==> Enumerates(entry.value, items))
    ensures var cmds := ValueCmds(key, entry.value, items) + ExpireCmds(key, entry.expire);
      AllLocal(cmds) && forall db: Db :: key !in db ==> InDbAll(db, cmds) == db[key := entry]
  {
    var cmds := ValueCmds(key, entry.value, items) + ExpireCmds(key, entry.expire);
    KeyRebuilt(map[], key, entry, items);
    forall db: Db | key !in db
      ensures InDbAll(db, cmds) == db[key := entry]
    {
      KeyRebuilt(db, key, entry, items);
    }
  }

  lemma OneCommand(cmd: Cmd)
    ensures LogTokens([cmd]) == [Count(|cmd|)] + Bulks(cmd)
  {
    assert [cmd][1..] == [];
  }

  // One more key of the database is written.
  lemma OneKeyMore(db: Db, rest: set<Bytes>, key: Bytes, cmds: seq<Cmd>, more: seq<Cmd>)
    requires rest <= db.Keys && key in rest && AllLocal(cmds) && InDbAll(map[], cmds) == db - rest
    requires AllLocal(more) && InDbAll(db - rest, more) == (db - rest)[key := db[key]]
    requires KeyCommands(key, db[key], more) && forall i :: 0 <= i < |cmds| ==> DbCommand(db, cmds[i])
    ensures AllLocal(cmds + more) && InDbAll(map[], cmds + more) == db - (rest - {key})
    ensures forall i :: 0 <= i < |cmds + more| ==> DbCommand(db, (cmds + more)[i])
  {
    InDbAppend(map[], cmds, more);
    assert (db - rest)[key := db[key]] == db - (rest - {key});
    forall i | 0 <= i < |cmds + more|
      ensures DbCommand(db, (cmds + more)[i])
    {
      if i >= |cmds| {
        assert KeyCommand(key, db[key], more[i - |cmds|]);
      }
    }
  }

  method RewriteDb(db: Db) returns (out: seq<Token>, ghost cmds: seq<Cmd>)
    requires ValidDb(db)
    ensures out == LogTokens(cmds) && AllLocal(cmds)
    ensures InDbAll(map[], cmds) == db
    ensures forall i :: 0 <= i < |cmds| ==> DbCommand(db, cmds[i])
  {
    out, cmds := [], [];
    var rest := db.Keys;
    assert db - rest == map[];
    while rest != {}
      invariant rest <= db.Keys
      invariant out == LogTokens(cmds) && AllLocal(cmds)
      invariant InDbAll(map[], cmds) == db - rest
      invariant forall i :: 0 <= i < |cmds| ==> DbCommand(db, cmds[i])
      decreases |rest|
    {
      var key :| key in rest;
      var keyOut, keyCmds := RewriteKey(key, db[key]);
      LogTokensAppend(cmds, keyCmds);
      OneKeyMore(db, rest, key, cmds, keyCmds);
      out, cmds := out + keyOut, cmds + keyCmds;
      rest := rest - {key};
    }
    assert db - {} == db;
  }

  // Databases before j are rebuilt, the others still empty.
  ghost predicate Rebuilt(dbs: seq<Db>, cmds: seq<Cmd>, j: nat) {
    var s := ExecAll(EmptyServer(|dbs|), cmds);
    |s.dbs| == |dbs| && forall i :: 0 <= i < |dbs| ==> s.dbs[i] == if i < j then dbs[i] else map[]
  }

  lemma DbRebuilt(dbs: seq<Db>, cmds: seq<Cmd>, j: nat, more: seq<Cmd>)
    requires j < |dbs| && Rebuilt(dbs, cmds, j) && AllLocal(more) && InDbAll(map[], more) == dbs[j]
    ensures Rebuilt(dbs, cmds + [["SELECT", Digits(j)]] + more, j + 1)
  {
    var select := ["SELECT", Digits(j)];
    var s := ExecAll(EmptyServer(|dbs|), cmds);
    ExecAppend(EmptyServer(|dbs|), cmds, [select]);
    SelectExec(s, j);
    LocalExec(s.(selected := j), more);
    ExecAppend(EmptyServer(|dbs|), cmds + [select], more);
  }

  lemma SelectExec(s: Server, j: nat)
    requires j < |s.dbs|
    ensures ExecAll(s, [["SELECT", Digits(j)]]) == s.(selected := j)
  {
    ParseHeader(j, "");
    assert Digits(j) + "" == Digits(j);
    assert [["SELECT", Digits(j)]][1..] == [];
  }

  lemma DbTokens(cmds: seq<Cmd>, j: nat, more: seq<Cmd>)
    ensures LogTokens(cmds + [["SELECT", Digits(j)]] + more)
         == LogTokens(cmds) + [Count(2), Bulk("SELECT"), Bulk(Digits(j))] + LogTokens(more)
  {
    var select := ["SELECT", Digits(j)];
    OneCommand(select);
    LogTokensAppend(cmds, [select]);
    LogTokensAppend(cmds + [select], more);
  }

  // One more database is written.
  lemma OneDbMore(dbs: seq<Db>, cmds: seq<Cmd>, j: nat, more: seq<Cmd>)
    requires j < |dbs| && forall i :: 0 <= i < |cmds| ==> RewriteCommand(dbs, cmds[i])
    requires forall i :: 0 <= i < |more| ==> DbCommand(dbs[j], more[i])
    ensures var all := cmds + [Select(j)] + more; forall i :: 0 <= i < |all| ==> RewriteCommand(dbs, all[i])
  {
    assert RewriteCommand(dbs, Select(j));
    forall i | 0 <= i < |more|
      ensures RewriteCommand(dbs, more[i])
    {
    }
  }

  /** These tokens are the commands cmds, taken from the databases, and running them on an empty server gives
      exactly the databases. */
  ghost predicate RebuildsWith(out: seq<Token>, cmds: seq<Cmd>, dbs: seq<Db>) {
    && out == LogTokens(cmds) && ExecAll(EmptyServer(|dbs|), cmds).dbs == dbs
    && forall i :: 0 <= i < |cmds| ==> RewriteCommand(dbs, cmds[i])
  }

  ghost predicate Rebuilds(out: seq<Token>, dbs: seq<Db>) {
    exists cmds :: RebuildsWith(out, cmds, dbs)
  }

  /** Running what a rewrite wrote on an empty server gives exactly the databases it was made from. */
  method RewriteAppendOnlyFileRio(dbs: seq<Db>) returns (out: seq<Token>)
    requires forall j :: 0 <= j < |dbs| ==> ValidDb(dbs[j])
    ensures Rebuilds(out, dbs)
  {
    out := [];
    ghost var cmds := [];
    for j := 0 to |dbs|
      invariant out == LogTokens(cmds) && Rebuilt(dbs, cmds, j)
      invariant forall i :: 0 <= i < |cmds| ==> RewriteCommand(dbs, cmds[i])
    {
      if |dbs[j]| != 0 {
        var dbOut, dbCmds := RewriteDb(dbs[j]);
        DbRebuilt(dbs, cmds, j, dbCmds);
        DbTokens(cmds, j, dbCmds);
        OneDbMore(dbs, cmds, j, dbCmds);
        out := out + [Count(2), Bulk("SELECT"), Bulk(Digits(j))] + dbOut;
        cmds := cmds + [Select(j)] + dbCmds;
      }
    }
    assert RebuildsWith(out, cmds, dbs);
  }

  // ----- its commands can be read

  /** Every SELECT names one of n databases. */
  ghost predicate SelectsWithin(cmds: seq<Cmd>, n: nat) {
    forall i :: 0 <= i < |cmds| ==>
      cmds[i] != [] && (!Local(cmds[i]) ==> |cmds[i]| == 2 && 0 <= ParseInt(cmds[i][1]) < n)
  }

  lemma RewriteSelects(dbs: seq<Db>, cmds: seq<Cmd>)
    requires forall i :: 0 <= i < |cmds| ==> RewriteCommand(dbs, cmds[i])
    ensures SelectsWithin(cmds, |dbs|)
  {
    forall i | 0 <= i < |cmds|
      ensures cmds[i] != [] && (!Local(cmds[i]) ==> |cmds[i]| == 2 && 0 <= ParseInt(cmds[i][1]) < |dbs|)
    {
      assert RewriteCommand(dbs, cmds[i]);
      if j :| 0 <= j < |dbs| && cmds[i] == Select(j) {
        ParseHeader(j, "");
        assert Digits(j) + "" == Digits(j);
      }
    }
  }

  /** Sizes that a string, an expiry time and the number of databases can have. */
  ghost predicate ValueFits(v: Value) {
    forall b :: InValue(v, b) ==> |b| <= LONG_MAX
  }

  ghost predicate EntryFits(key: Bytes, entry: Entry) {
    |key| <= LONG_MAX && ValueFits(entry.value) && (entry.expire.Some? ==> entry.expire.value <= LONG_MAX)
  }

  ghost predicate Fits(dbs: seq<Db>) {
    && |dbs| <= INT_MAX
    && forall j, key :: 0 <= j < |dbs| && key in dbs[j] ==> EntryFits(key, dbs[j][key])
  }

  lemma NumberFits(n: nat)
    requires n <= LONG_MAX
    ensures |Digits(n)| <= LONG_MAX
  {
    HeaderShape('*', n);
  }

  lemma KeyCommandFits(key: Bytes, entry: Entry, cmd: Cmd)
    requires EntryFits(key, entry) && KeyCommand(key, entry, cmd)
    ensures Writable(cmd)
  {
    if entry.expire.Some? {
      NumberFits(entry.expire.value);
    }
    var names := KEY_COMMANDS;
    assert forall i :: 0 <= i < |names| ==> |names[i]| <= 9;
    assert |cmd[0]| <= 9;
    forall i | 1 <= i < |cmd|
      ensures |cmd[i]| <= LONG_MAX
    {
      assert InEntry(key, entry, cmd[i]);
    }
  }

  /** A rewrite of a dataset that fits writes commands that a file can hold. */
  lemma RewriteWritable(dbs: seq<Db>, cmd: Cmd)
    requires Fits(dbs) && RewriteCommand(dbs, cmd)
    ensures Writable(cmd)
  {
    if j :| 0 <= j < |dbs| && cmd == Select(j) {
      NumberFits(j);
    } else {
      var j :| 0 <= j < |dbs| && DbCommand(dbs[j], cmd);
      var key :| key in dbs[j] && KeyCommand(key, dbs[j][key], cmd);
      KeyCommandFits(key, dbs[j][key], cmd);
    }
  }
}
