/** What a client that is served takes, element by element, and what blocking and unblocking record. */
module BlockedGives {
  import opened Equality
  import opened Options
  import opened BlockedModel
  import opened BlockedSteps
  import opened BlockedServe
  import opened BlockedHandle

  // The elements at a key; a key that is gone has none.
  function ItemsAt(db: map<Key, Value>, key: Key): seq<string> {
    if key in db then db[key].items else []
  }

  // Nothing changes but at these keys.
  ghost predicate OnlyAt(db: map<Key, Value>, db': map<Key, Value>, keys: set<Key>) {
    forall k :: k !in keys ==> (k in db' <==> k in db) && (k in db' ==> db'[k] == db[k])
  }

  /** n elements have left one end, and the key with the last of them. */
  ghost predicate Taken(db: map<Key, Value>, db': map<Key, Value>, key: Key, n: nat, fromHead: bool)
    requires key in db && n <= |db[key].items|
  {
    var items, left := db[key].items, ItemsAt(db', key);
    && (if fromHead then items == items[..n] + left else items == left + items[|items| - n..])
    && (key in db' <==> n < |items|) && (key in db' ==> db'[key].otype == db[key].otype)
    && OnlyAt(db, db', {key})
  }

  /** A client without a target, and any client of a sorted set, takes as many elements as it asked for, or all
      there are, from the end that it named. */
  lemma GiveTakes(s: State, key: Key, c: ClientId)
    requires Servable(s, key, c) && (s.clients[c].target.None? || s.db[key].otype == ZsetType)
    ensures var client, items, s' := s.clients[c], s.db[key].items, Give(s, key, c);
      && Taken(s.db, s'.db, key, if client.count < |items| then client.count else |items|, client.fromHead)
      && s' == s.(db := s'.db)
  {
    var client, items := s.clients[c], s.db[key].items;
    TakesFrom(s.db, key, if client.count < |items| then client.count else |items|, client.fromHead);
  }

  lemma TakesFrom(db: map<Key, Value>, key: Key, n: nat, fromHead: bool)
    requires key in db && 1 <= n <= |db[key].items|
    ensures Taken(db, PopDb(db, key, n, fromHead), key, n, fromHead)
  {
    var items := db[key].items;
    var left := PopItems(items, n, fromHead);
    assert left == [] <==> n == |items|;
    assert items == if fromHead then items[..n] + left else left + items[|items| - n..];
  }

  /** The element at one end of a list has become the first or the last of another one. */
  ghost predicate Moved(
      db: map<Key, Value>, db': map<Key, Value>, key: Key, dst: Key, fromHead: bool, toHead: bool)
    requires key in db && db[key].items != [] && key != dst
  {
    var items, left, was, now := db[key].items, ItemsAt(db', key), ItemsAt(db, dst), ItemsAt(db', dst);
    var x := if fromHead then items[0] else items[|items| - 1];
    && (if fromHead then items == [x] + left else items == left + [x])
    && (if toHead then now == [x] + was else now == was + [x])
    && (key in db' <==> |items| > 1) && (key in db' ==> db'[key].otype == db[key].otype)
    && dst in db' && db'[dst].otype == ListType
    && OnlyAt(db, db', {key, dst})
  }

  lemma MovesBetween(db: map<Key, Value>, key: Key, dst: Key, fromHead: bool, toHead: bool)
    requires key in db && dst in db && db[key].items != [] && key != dst && db[dst].otype == ListType
    ensures Moved(db, MoveDb(db, key, dst, fromHead, toHead), key, dst, fromHead, toHead)
  {
    var items := db[key].items;
    var left := PopItems(items, 1, fromHead);
    assert left == [] <==> |items| == 1;
    assert items == if fromHead then [items[0]] + left else left + [items[|items| - 1]];
    assert Popped(items, 1, fromHead)[0] == if fromHead then items[0] else items[|items| - 1];
  }

  // A destination that was not there counts as an empty list.
  lemma CreatedMoves(db: map<Key, Value>, db1: map<Key, Value>, db': map<Key, Value>, key: Key, dst: Key,
                     fromHead: bool, toHead: bool)
    requires key in db && db[key].items != [] && key != dst && dst !in db && db1 == db[dst := Value(ListType, [])]
    requires Moved(db1, db', key, dst, fromHead, toHead)
    ensures Moved(db, db', key, dst, fromHead, toHead)
  {
  }

  /** A client with a target moves the element at the end that it named to the end of the other list that it named,
      creating that list if need be. */
  lemma GiveMoves(s: State, key: Key, c: ClientId)
    requires Servable(s, key, c) && s.db[key].otype == ListType
    requires var target := s.clients[c].target;
      target.Some? && target.value != key && (target.value in s.db ==> s.db[target.value].otype == ListType)
    ensures var client := s.clients[c];
      Moved(s.db, Give(s, key, c).db, key, client.target.value, client.fromHead, client.toHead)
  {
    var client := s.clients[c];
    var dst := client.target.value;
    var db1 := if dst in s.db then s.db else s.db[dst := Value(ListType, [])];
    GiveIsMove(s, key, c, dst, db1);
    MovesBetween(db1, key, dst, client.fromHead, client.toHead);
    if dst !in s.db {
      CreatedMoves(s.db, db1, Give(s, key, c).db, key, dst, client.fromHead, client.toHead);
    }
  }

  lemma GiveIsMove(s: State, key: Key, c: ClientId, dst: Key, db1: map<Key, Value>)
    requires Servable(s, key, c) && s.db[key].otype == ListType && s.clients[c].target == Some(dst) && dst != key
    requires dst in s.db ==> s.db[dst].otype == ListType
    requires db1 == if dst in s.db then s.db else s.db[dst := Value(ListType, [])]
    ensures Same(Give(s, key, c).db, MoveDb(db1, key, dst, s.clients[c].fromHead, s.clients[c].toHead))
  {
    if dst !in s.db {
      AddedDb(s, dst, Value(ListType, []));
    }
  }

  lemma AddedDb(s: State, key: Key, value: Value)
    requires Counts(s) && key !in s.db
    ensures Same(DbAdd(s, key, value).db, s.db[key := value])
  {
  }

  /** A client whose target is the list itself turns it: the element goes from one end to the other, or stays. */
  lemma GiveRotates(s: State, key: Key, c: ClientId)
    requires Servable(s, key, c) && s.db[key].otype == ListType && s.clients[c].target == Some(key)
    ensures var client, items, s' := s.clients[c], s.db[key].items, Give(s, key, c);
      && key in s'.db && s'.db[key].otype == ListType && OnlyAt(s.db, s'.db, {key}) && s' == s.(db := s'.db)
      && s'.db[key].items ==
           if client.fromHead == client.toHead then items
           else if client.fromHead then items[1..] + [items[0]]
           else [items[|items| - 1]] + items[..|items| - 1]
  {
    var client, items := s.clients[c], s.db[key].items;
    var x, left := Popped(items, 1, client.fromHead)[0], PopItems(items, 1, client.fromHead);
    assert x == if client.fromHead then items[0] else items[|items| - 1];
    assert left == if client.fromHead then items[1..] else items[..|items| - 1];
    assert items == if client.fromHead then [x] + left else left + [x];
  }

  /** A target that holds something else is an error for the client: it is given nothing. */
  lemma GiveRefuses(s: State, key: Key, c: ClientId)
    requires Servable(s, key, c) && s.db[key].otype == ListType
    requires var target := s.clients[c].target;
      target.Some? && target.value in s.db && s.db[target.value].otype != ListType
    ensures Give(s, key, c) == s
  {
  }

  /** Serving changes the keyspace as giving does, and unblocks this client alone. */
  lemma ServeOneGives(s: State, key: Key, otype: ObjectType, waiting: seq<ClientId>, rest: seq<Key>)
    requires Serving(s, key, otype, waiting, rest)
    requires waiting != [] && key in s.db && Matches(s, waiting[0], otype)
    ensures Servable(s, key, waiting[0]) && CanUnblock(Give(s, key, waiting[0]), waiting[0])
    ensures var c, s' := waiting[0], ServeOne(s, key, waiting[0]);
      && s'.db == Give(s, key, c).db
      && c in s'.clients && s'.clients[c].btype == NotBlocked && s'.clients[c].keys == {} && s'.clients[c].target.None?
      && s'.clients.Keys == s.clients.Keys && forall d :: d in s.clients && d != c ==> s'.clients[d] == s.clients[d]
  {
    ServeOneKeeps(s, key, otype, waiting, rest);
    UnblockLeavesDb(Give(s, key, waiting[0]), waiting[0]);
  }

  lemma UnblockLeavesDb(s: State, c: ClientId)
    requires CanUnblock(s, c)
    ensures Unblock(s, c).db == s.db
  {
  }

  ghost predicate IdleOn(clients: Clients, db: map<Key, Value>, c: ClientId, k: Key) {
    c in clients && k in clients[c].keys && k in db ==>
      && !(clients[c].btype == OnList && db[k].otype == ListType)
      && !(clients[c].btype == OnZset && db[k].otype == ZsetType)
  }

  lemma NoneWaits(clients: Clients, db: map<Key, Value>, c: ClientId, k: Key)
    requires NoLostWakeup(clients, db, {})
    ensures IdleOn(clients, db, c, k)
  {
  }

  /** When the ready keys have been handled and no wakeup was lost, nobody blocked on a list waits for a key that
      holds one, and nobody blocked on a sorted set for a key that holds one. */
  lemma NobodyWaits(s: State, c: ClientId, k: Key)
    requires Valid(s) && NoLost(s, {})
    ensures IdleOn(Handle(s).clients, Handle(s).db, c, k)
  {
    HandleServesEverybody(s, {});
    NoneWaits(Handle(s).clients, Handle(s).db, c, k);
  }

  // Somebody waits at the key, for whatever type.
  ghost predicate SomebodyAt(clients: Clients, key: Key) {
    exists c :: c in clients && key in clients[c].keys
  }

  // Somebody is blocked on this type or by a module, at whatever key.
  ghost predicate SomebodyOn(clients: Clients, t: BlockType) {
    exists c :: c in clients && (clients[c].btype == t || clients[c].btype == OnModule)
  }

  lemma SomebodyCounted(s: State, t: BlockType)
    requires Consistent(s) && t != NotBlocked
    ensures t in s.byType && OnModule in s.byType
    ensures SomebodyOn(s.clients, t) <==> !(s.byType[t] == 0 && s.byType[OnModule] == 0)
  {
    var some, modules := OfType(s.clients, t), OfType(s.clients, OnModule);
    if c :| c in s.clients && (s.clients[c].btype == t || s.clients[c].btype == OnModule) {
      assert c in some + modules;
      assert some != {} || modules != {};
    } else {
      assert some == {} && modules == {};
    }
  }

  lemma SomebodyIndexed(s: State, key: Key)
    requires Consistent(s)
    ensures SomebodyAt(s.clients, key) <==> key in s.blocking
  {
    if key in s.blocking {
      assert s.blocking[key][0] in s.clients;
    }
  }

  /** Exactly when a signal queues its key, behind all others: it is not queued yet, somebody waits at it, and
      somebody is blocked on its type or by a module. Otherwise nothing happens. */
  lemma SignalExact(s: State, key: Key, otype: ObjectType, queued: bool)
    requires Consistent(s)
    requires queued <==> otype != PlainType && key !in s.readySet
                           && SomebodyAt(s.clients, key) && SomebodyOn(s.clients, BlockedFor(otype))
    ensures Counts(s)
    ensures Signal(s, key, otype) ==
      if queued then s.(readyQueue := s.readyQueue + [key], readySet := s.readySet + {key}) else s
  {
    SomebodyIndexed(s, key);
    if otype != PlainType {
      SomebodyCounted(s, BlockedFor(otype));
    }
  }

  // ----- what blocking and unblocking record

  /** A client that blocks is recorded as it asked, at the end of the list of each of its keys, once; nobody else is
      touched. */
  lemma BlockRecords(s: State, c: ClientId, how: Client, keys: seq<Key>, k: Key)
    requires c in s.clients && how.btype in s.byType
    ensures var s' := Block(s, c, how, keys);
      && s'.clients.Keys == s.clients.Keys && (forall d :: d in s.clients && d != c ==> s'.clients[d] == s.clients[d])
      && s'.clients[c].btype == how.btype && s'.clients[c].target == how.target && s'.clients[c].count == how.count
      && s'.clients[c].fromHead == how.fromHead && s'.clients[c].toHead == how.toHead
      && s'.clients[c].unblocked == s.clients[c].unblocked && (k in s'.clients[c].keys <==> k in keys)
      && (k in s'.blocking <==> k in keys || k in s.blocking)
      && (k in keys ==> s'.blocking[k] == (if k in s.blocking then s.blocking[k] else []) + [c])
      && (k !in keys && k in s.blocking ==> s'.blocking[k] == s.blocking[k])
      && s'.db == s.db && s'.readyQueue == s.readyQueue && s'.readySet == s.readySet
      && s'.unblockedClients == s.unblockedClients
  {
  }

  /** A client that is unblocked waits for nothing any more, in no list, and goes to the end of the clients to be
      reprocessed unless it is there already; the order of the others is as it was. */
  lemma UnblockRecords(s: State, c: ClientId, k: Key, d: ClientId)
    requires CanUnblock(s, c)
    ensures var s' := Unblock(s, c);
      && s'.clients.Keys == s.clients.Keys && (d in s.clients && d != c ==> s'.clients[d] == s.clients[d])
      && s'.clients[c].btype == NotBlocked && s'.clients[c].keys == {} && s'.clients[c].unblocked
      && s'.unblockedClients == s.unblockedClients + (if s.clients[c].unblocked then [] else [c])
      && (k !in s.clients[c].keys ==> (k in s'.blocking <==> k in s.blocking))
      && (k !in s.clients[c].keys && k in s.blocking ==> s'.blocking[k] == s.blocking[k])
      && (k in s.clients[c].keys && k in s'.blocking ==> k in s.blocking && c !in s'.blocking[k])
      && (k in s'.blocking && d != c ==> (d in s'.blocking[k] <==> d in s.blocking[k]))
      && s'.db == s.db && s'.readyQueue == s.readyQueue && s'.readySet == s.readySet
  {
    if k in s.blocking {
      WithoutMember(s.blocking[k], c, c);
      WithoutMember(s.blocking[k], c, d);
    }
  }

  /** The client that was unblocked first is reprocessed first. */
  lemma TakesFirst(s: State)
    requires s.unblockedClients != [] && s.unblockedClients[0] in s.clients
    ensures var c, s' := s.unblockedClients[0], TakeUnblocked(s);
      && s.unblockedClients == [c] + s'.unblockedClients && s'.clients.Keys == s.clients.Keys
      && s'.clients[c] == s.clients[c].(unblocked := false)
      && (forall d :: d in s.clients && d != c ==> s'.clients[d] == s.clients[d])
      && s' == s.(unblockedClients := s'.unblockedClients, clients := s'.clients)
  {
  }
}
