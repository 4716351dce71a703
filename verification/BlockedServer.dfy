/** blocked.c in its own form: one server whose tables, lists and counters are updated in place. */
module BlockedServer {
  import opened Equality
  import opened Options
  import opened BlockedModel
  import opened BlockedSteps
  import opened BlockedServe
  import opened BlockedHandle

  lemma WaiterOfNoKeys(blocking: Index, c: ClientId)
    ensures AddWaiter(blocking, c, {}) == blocking
    ensures RemoveWaiter(blocking, c, {}) == blocking
  {
    var b := AddWaiter(blocking, c, {});
    assert b.Keys == blocking.Keys;
    forall k | k in b ensures b[k] == blocking[k] {
      assert b[k] == blocking[k] + [];
    }
  }

  lemma WaiterOfOneMore(blocking: Index, c: ClientId, keys: set<Key>, k: Key)
    requires k !in keys
    ensures var b := AddWaiter(blocking, c, keys);
      AddWaiter(blocking, c, keys + {k}) == b[k := (if k in b then b[k] else []) + [c]]
  {
    var b := AddWaiter(blocking, c, keys);
    var b' := AddWaiter(blocking, c, keys + {k});
    assert b'.Keys == b.Keys + {k};
    forall j | j in b' ensures b'[j] == b[k := (if k in b then b[k] else []) + [c]][j] {
    }
  }

  lemma WaiterOfOneLess(blocking: Index, c: ClientId, keys: set<Key>, k: Key)
    requires k !in keys && k in blocking
    ensures var b, l := RemoveWaiter(blocking, c, keys), Without(blocking[k], c);
      && k in b && b[k] == blocking[k]
      && RemoveWaiter(blocking, c, keys + {k}) == if l == [] then b - {k} else b[k := l]
  {
  }

  lemma SetTwice(clients: Clients, c: ClientId, once: Client, twice: Client)
    ensures clients[c := once][c := twice] == clients[c := twice]
  {
  }

  lemma OneMoreKey(before: seq<Key>, key: Key, after: seq<Key>)
    requires after == before + [key]
    ensures (set k | k in after) == (set k | k in before) + {key}
  {
  }

  class Server {
    var clients: Clients
    var blocking: Index
    var readyQueue: seq<Key>
    var readySet: set<Key>
    var blockedClients: int
    var byType: map<BlockType, int>
    var unblockedClients: seq<ClientId>
    var db: map<Key, Value>
    ghost var since: map<ClientId, nat>
    ghost var clock: nat

    ghost function Now(): State
      reads this
    {
      State(clients, blocking, readyQueue, readySet, blockedClients, byType, unblockedClients, db, since, clock)
    }

    constructor (ids: set<ClientId>)
      ensures Valid(Now()) && NoLost(Now(), {}) && db == map[] && clients.Keys == ids
      ensures forall c :: c in ids ==> clients[c].btype == NotBlocked
    {
      clients := map c | c in ids :: Client(NotBlocked, {}, None, 1, true, true, false);
      blocking, readyQueue, readySet := map[], [], {};
      blockedClients := 0;
      byType := map[
        OnList := 0, OnZset := 0, OnStream := 0, OnModule := 0, OnWait := 0, OnPostpone := 0, OnShutdown := 0];
      unblockedClients, db, since, clock := [], map[], map[], 0;
      new;
      assert AllBlocked(clients) == {};
      assert forall t :: t != NotBlocked ==> OfType(clients, t) == {};
    }

    /** queueClientForReprocessing. */
    method QueueClientForReprocessing(c: ClientId)
      requires c in clients
      modifies this
      ensures Now() == Requeue(old(Now()), c)
    {
      if !clients[c].unblocked {
        clients := clients[c := clients[c].(unblocked := true)];
        unblockedClients := unblockedClients + [c];
      }
    }

    /** unblockClientWaitingData: the client leaves the list of every key in its table. */
    method UnblockClientWaitingData(c: ClientId)
      requires c in clients && forall k :: k in clients[c].keys ==> k in blocking
      modifies this
      ensures Now() == old(Now()).(blocking := RemoveWaiter(old(blocking), c, old(clients)[c].keys),
                                   clients := old(clients)[c := old(clients)[c].(keys := {}, target := None)])
    {
      var rest := clients[c].keys;
      ghost var done: set<Key> := {};
      WaiterOfNoKeys(blocking, c);
      while rest != {}
        invariant Now() == old(Now()).(blocking := blocking)
        invariant rest !! done && rest + done == clients[c].keys
        invariant blocking == RemoveWaiter(old(blocking), c, done)
        decreases rest
      {
        var k :| k in rest;
        WaiterOfOneLess(old(blocking), c, done, k);
        var l := Without(blocking[k], c);
        blocking := if l == [] then blocking - {k} else blocking[k := l];
        rest, done := rest - {k}, done + {k};
      }
      assert done == clients[c].keys;
      clients := clients[c := clients[c].(keys := {}, target := None)];
    }

    /** unblockClient. */
    method UnblockClient(c: ClientId)
      requires CanUnblock(Now(), c) && forall k :: k in clients[c].keys ==> k in blocking
      modifies this
      ensures Now() == Unblock(old(Now()), c)
    {
      var btype := clients[c].btype;
      if clients[c].keys != {} {
        UnblockClientWaitingData(c);
      } else {
        WaiterOfNoKeys(blocking, c);
        clients := clients[c := clients[c].(keys := {}, target := None)];
      }
      blockedClients := blockedClients - 1;
      byType := byType[btype := byType[btype] - 1];
      clients := clients[c := clients[c].(btype := NotBlocked)];
      SetTwice(old(clients), c, old(clients)[c].(keys := {}, target := None),
        old(clients)[c].(btype := NotBlocked, keys := {}, target := None));
      QueueClientForReprocessing(c);
    }

    /** The loop of blockForKeys. A key named twice is taken once. */
    method JoinLists(c: ClientId, keys: seq<Key>) returns (table: set<Key>)
      modifies this`blocking
      ensures table == set k | k in keys
      ensures blocking == AddWaiter(old(blocking), c, table)
    {
      table := {};
      WaiterOfNoKeys(blocking, c);
      for j := 0 to |keys|
        invariant table == set k | k in keys[..j]
        invariant blocking == AddWaiter(old(blocking), c, table)
      {
        var key := keys[j];
        OneMoreKey(keys[..j], key, keys[..j + 1]);
        if key in table {
          assert table + {key} == table;
          continue;
        }
        WaiterOfOneMore(old(blocking), c, table, key);
        var l := if key in blocking then blocking[key] else [];
        blocking := blocking[key := l + [c]];
        table := table + {key};
      }
      assert keys[..|keys|] == keys;
    }

    /** blockForKeys and, at its end, blockClient. */
    method BlockForKeys(c: ClientId, how: Client, keys: seq<Key>)
      requires c in clients && how.btype in byType
      modifies this
      ensures Now() == Block(old(Now()), c, how, keys)
    {
      var table := JoinLists(c, keys);
      clients := clients[c := how.(keys := table, unblocked := clients[c].unblocked)];
      blockedClients := blockedClients + 1;
      byType := byType[how.btype := byType[how.btype] + 1];
      since, clock := since[c := clock], clock + 1;
    }

    /** signalKeyAsReady. */
    method SignalKeyAsReady(key: Key, otype: ObjectType)
      requires Counts(Now())
      modifies this
      ensures Now() == Signal(old(Now()), key, otype)
    {
      var btype := BlockedFor(otype);
      if btype == NotBlocked {
        return;
      }
      if byType[btype] == 0 && byType[OnModule] == 0 {
        return;
      }
      if key !in blocking {
        return;
      }
      if key in readySet {
        return;
      }
      readyQueue := readyQueue + [key];
      readySet := readySet + {key};
    }

    // Elements off one end; an empty key goes.
    method PopFrom(key: Key, n: nat, fromHead: bool) returns (deleted: bool)
      requires key in db && n <= |db[key].items|
      modifies this`db
      ensures db == PopDb(old(db), key, n, fromHead) && (deleted <==> key !in db)
    {
      var left := PopItems(db[key].items, n, fromHead);
      deleted := left == [];
      db := if deleted then db - {key} else db[key := db[key].(items := left)];
    }

    // One element from a list to another or to its own other end; an empty list goes.
    method MoveTo(key: Key, dst: Key, fromHead: bool, toHead: bool) returns (deleted: bool)
      requires key in db && dst in db && db[key].items != []
      modifies this`db
      ensures Same(db, MoveDb(old(db), key, dst, fromHead, toHead)) && (deleted <==> key !in db)
    {
      var x := Popped(db[key].items, 1, fromHead)[0];
      db := db[key := db[key].(items := PopItems(db[key].items, 1, fromHead))];
      db := db[dst := db[dst].(items := PushItem(db[dst].items, x, toHead))];
      deleted := db[key].items == [];
      if deleted {
        db := db - {key};
      }
    }

    // dbAdd of an empty list.
    method AddList(key: Key)
      requires Counts(Now()) && key !in db
      modifies this
      ensures Now() == DbAdd(old(Now()), key, Value(ListType, []))
    {
      db := db[key := Value(ListType, [])];
      SignalKeyAsReady(key, ListType);
    }

    /** serveClientBlockedOnList, and genericZpopCommand as the blocked client's command. */
    method GiveTo(c: ClientId, key: Key) returns (deleted: bool)
      requires Servable(Now(), key, c)
      modifies this
      ensures Now() == Give(old(Now()), key, c)
      ensures deleted <==> key !in db
    {
      var client, otype := clients[c], db[key].otype;
      if client.target.None? || otype == ZsetType {
        deleted := PopFrom(key, Min(client.count, |db[key].items|), client.fromHead);
        return;
      }
      var dst := client.target.value;
      if dst in db && db[dst].otype != ListType {
        return false;
      }
      if dst !in db {
        AddList(dst);
      }
      deleted := MoveTo(key, dst, client.fromHead, client.toHead);
    }

    /** serveClientsBlockedOnListKey and serveClientsBlockedOnSortedSetKey, past their quick return. */
    method ServeClientsBlockedOnKey(key: Key, otype: ObjectType, ghost rest: seq<Key>)
      requires key in blocking && Serving(Now(), key, otype, blocking[key], rest) && key in db
      modifies this
      ensures Now() == ServeAll(old(Now()), key, otype, old(blocking)[key], rest)
    {
      var waiting := blocking[key];
      ghost var goal := ServeAll(Now(), key, otype, waiting, rest);
      var i := 0;
      var deleted := false;
      assert waiting[0..] == waiting;
      while i < |waiting| && !deleted
        invariant 0 <= i <= |waiting|
        invariant deleted <==> key !in db
        invariant Serving(Now(), key, otype, waiting[i..], rest)
        invariant Same(goal, ServeAll(Now(), key, otype, waiting[i..], rest))
        decreases |waiting| - i
      {
        var receiver := waiting[i];
        assert waiting[i..][0] == receiver && waiting[i..][1..] == waiting[i + 1..];
        deleted := ServeOrSkip(receiver, key, otype, waiting[i..], rest);
        i := i + 1;
      }
    }

    // One round of the loop.
    method ServeOrSkip(
        receiver: ClientId, key: Key, otype: ObjectType, ghost waiting: seq<ClientId>, ghost rest: seq<Key>)
        returns (deleted: bool)
      requires Serving(Now(), key, otype, waiting, rest) && waiting != [] && receiver == waiting[0] && key in db
      modifies this
      ensures Serving(Now(), key, otype, waiting[1..], rest)
      ensures Same(ServeAll(old(Now()), key, otype, waiting, rest), ServeAll(Now(), key, otype, waiting[1..], rest))
      ensures deleted <==> key !in db
    {
      deleted := false;
      if clients[receiver].btype != BlockedFor(otype) {
        SkipOne(Now(), key, otype, waiting, rest);
      } else {
        deleted := ServeReceiver(receiver, key, otype, waiting, rest);
      }
    }

    // Serve one client, then unblock it.
    method ServeReceiver(
        receiver: ClientId, key: Key, otype: ObjectType, ghost waiting: seq<ClientId>, ghost rest: seq<Key>)
        returns (deleted: bool)
      requires Serving(Now(), key, otype, waiting, rest)
      requires waiting != [] && receiver == waiting[0] && key in db && Matches(Now(), receiver, otype)
      modifies this
      ensures Serving(Now(), key, otype, waiting[1..], rest)
      ensures Same(ServeAll(old(Now()), key, otype, waiting, rest), ServeAll(Now(), key, otype, waiting[1..], rest))
      ensures deleted <==> key !in db
    {
      ServeOneKeeps(Now(), key, otype, waiting, rest);
      GivenStaysIndexed(Now(), key, receiver, rest);
      deleted := GiveTo(receiver, key);
      UnblockClient(receiver);
    }

    /** One turn of the inner loop below. */
    method HandleReadyKey(key: Key, ghost rest: seq<Key>)
      requires Consistent(Now()) && NoEmptyValues(db) && ReadyWith(Now(), [key] + rest)
      modifies this
      ensures Now() == HandleKey(old(Now()), key, rest)
    {
      KeyTaken(Now(), key, rest);
      readySet := readySet - {key};
      if key in db {
        var otype := db[key].otype;
        if Poppable(otype) {
          if byType[BlockedFor(otype)] != 0 {
            if key in blocking {
              ServeClientsBlockedOnKey(key, otype, rest);
            }
          }
        }
      }
    }

    /** handleClientsBlockedOnKeys. */
    method HandleClientsBlockedOnKeys(ghost lost: set<Key>)
      requires Valid(Now()) && NoLost(Now(), lost)
      modifies this
      ensures Now() == Handle(old(Now()))
      ensures Valid(Now()) && readyQueue == [] && readySet == {}
      ensures NoLostWakeup(clients, db, lost)
    {
      HandleServesEverybody(Now(), lost);
      while readyQueue != []
        invariant Valid(Now()) && NoLost(Now(), lost)
        invariant Handle(old(Now())) == Handle(Now())
        decreases blockedClients, |readyQueue|
      {
        TakeQueue(Now());
        ghost var before := Now();
        var l := readyQueue;
        readyQueue := [];
        DrainKeeps(Now(), l, lost);
        WorkOff(l);
        assert Now() == Drain(before.(readyQueue := []), before.readyQueue);
      }
    }

    // The inner loop, over the list taken from server.ready_keys.
    method WorkOff(ready: seq<Key>)
      requires Consistent(Now()) && NoEmptyValues(db) && ReadyWith(Now(), ready)
      modifies this
      ensures Now() == Drain(old(Now()), ready)
    {
      var l := ready;
      while l != []
        invariant Consistent(Now()) && NoEmptyValues(db) && ReadyWith(Now(), l)
        invariant Drain(old(Now()), ready) == Drain(Now(), l)
        decreases |l|
      {
        assert [l[0]] + l[1..] == l;
        HandleKeyKeeps(Now(), l[0], l[1..]);
        HandleReadyKey(l[0], l[1..]);
        l := l[1..];
      }
    }
  }

  lemma SkipOne(s: State, key: Key, otype: ObjectType, waiting: seq<ClientId>, rest: seq<Key>)
    requires Serving(s, key, otype, waiting, rest) && waiting != [] && key in s.db && !Matches(s, waiting[0], otype)
    ensures Serving(s, key, otype, waiting[1..], rest)
    ensures Same(ServeAll(s, key, otype, waiting, rest), ServeAll(s, key, otype, waiting[1..], rest))
  {
  }

  lemma GivenStaysIndexed(s: State, key: Key, c: ClientId, rest: seq<Key>)
    requires Consistent(s) && ReadyWith(s, rest) && NoEmptyValues(s.db) && Servable(s, key, c)
    ensures Same(Give(s, key, c).clients, s.clients) && Same(Give(s, key, c).blocking, s.blocking)
    ensures forall k :: k in s.clients[c].keys ==> k in s.blocking
  {
    GiveLeavesIndex(s, key, c);
    IndexHolds(s, c);
  }

  lemma GiveLeavesIndex(s: State, key: Key, c: ClientId)
    requires Servable(s, key, c)
    ensures Same(Give(s, key, c).clients, s.clients) && Same(Give(s, key, c).blocking, s.blocking)
  {
    var client := s.clients[c];
    if client.target.Some? && s.db[key].otype != ZsetType && client.target.value !in s.db {
      AddLeavesIndex(s, client.target.value, Value(ListType, []));
    }
  }

  lemma AddLeavesIndex(s: State, key: Key, value: Value)
    requires Counts(s) && key !in s.db
    ensures Same(DbAdd(s, key, value).clients, s.clients) && Same(DbAdd(s, key, value).blocking, s.blocking)
  {
  }

  lemma IndexHolds(s: State, c: ClientId)
    requires Consistent(s) && c in s.clients
    ensures forall k :: k in s.clients[c].keys ==> k in s.blocking
  {
  }
}
