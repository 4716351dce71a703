/** Signalling keys as ready and serving the clients that wait for them. */
module BlockedServe {
  import opened BlockedModel
  import opened BlockedSteps

  // ----- signalKeyAsReady

  predicate Counts(s: State) {
    forall t :: t in {OnList, OnZset, OnStream, OnModule} ==> t in s.byType
  }

  /** signalKeyAsReady, with its quick returns. */
  function Signal(s: State, key: Key, otype: ObjectType): State
    requires Counts(s)
  {
    var btype := BlockedFor(otype);
    if btype == NotBlocked then s
    else if s.byType[btype] == 0 && s.byType[OnModule] == 0 then s
    else if key !in s.blocking then s
    else if key in s.readySet then s
    else s.(readyQueue := s.readyQueue + [key], readySet := s.readySet + {key})
  }

  /** The quick returns never drop a wakeup that somebody needs. */
  lemma SignalReaches(s: State, key: Key, otype: ObjectType, c: ClientId)
    requires Consistent(s) && c in s.clients && WaitsFor(s.clients[c], key, otype)
    ensures Counts(s) && key in Signal(s, key, otype).readySet
  {
    var t := BlockedFor(otype);
    assert t != NotBlocked;
    assert c in OfType(s.clients, t);
    assert OfType(s.clients, t) != {};
  }

  lemma SignalKeeps(s: State, key: Key, otype: ObjectType, rest: seq<Key>)
    requires Consistent(s) && ReadyWith(s, rest)
    ensures Counts(s)
    ensures var s' := Signal(s, key, otype);
      && Consistent(s') && ReadyWith(s', rest)
      && s'.clients == s.clients && s'.blocking == s.blocking && s'.db == s.db && s.readySet <= s'.readySet
  {
    var s' := Signal(s, key, otype);
    if s' != s {
      assert rest + s'.readyQueue == rest + s.readyQueue + [key];
    }
  }

  // ----- what commands do to the keyspace

  /** dbAdd. */
  function DbAdd(s: State, key: Key, value: Value): State
    requires Counts(s) && key !in s.db
  {
    Signal(s.(db := s.db[key := value]), key, value.otype)
  }

  function DbDelete(s: State, key: Key): State {
    s.(db := s.db - {key})
  }

  /** dbOverwrite: only the loss of a stream is signalled. */
  function DbOverwrite(s: State, key: Key, value: Value): State
    requires Counts(s) && key in s.db
  {
    var s1 := if s.db[key].otype == StreamType then Signal(s, key, StreamType) else s;
    s1.(db := s1.db[key := value])
  }

  predicate Stored(value: Value) {
    Poppable(value.otype) ==> value.items != []
  }

  lemma DbAddKeeps(s: State, key: Key, value: Value, rest: seq<Key>, pending: set<Key>)
    requires Consistent(s) && ReadyWith(s, rest) && key !in s.db
    ensures Counts(s)
    ensures Consistent(DbAdd(s, key, value)) && ReadyWith(DbAdd(s, key, value), rest)
    ensures DbAdd(s, key, value).clients == s.clients && DbAdd(s, key, value).blockedClients == s.blockedClients
    ensures s.readySet <= DbAdd(s, key, value).readySet
    ensures DbAdd(s, key, value).db == s.db[key := value]
    ensures NoLost(s, pending) ==> NoLost(DbAdd(s, key, value), pending)
  {
    var s1 := s.(db := s.db[key := value]);
    SignalKeeps(s1, key, value.otype, rest);
    var s' := DbAdd(s, key, value);
    if NoLost(s, pending) {
      forall c, k | c in s'.clients && k in s'.clients[c].keys && k in s'.db
        && Poppable(s'.db[k].otype) && WaitsFor(s'.clients[c], k, s'.db[k].otype)
        ensures k in s'.readySet + pending
      {
        if k == key {
          SignalReaches(s1, key, value.otype, c);
        } else {
          assert k in s.db && s.db[k] == s'.db[k];
        }
      }
    }
  }

  lemma DbDeleteKeeps(s: State, key: Key, lost: set<Key>)
    requires Valid(s) && NoLost(s, lost)
    ensures Valid(DbDelete(s, key)) && NoLost(DbDelete(s, key), lost)
  {
  }

  // Somebody waits for a value of this type at the key.
  ghost predicate Awaited(s: State, key: Key, otype: ObjectType) {
    exists c :: c in s.clients && WaitsFor(s.clients[c], key, otype)
  }

  lemma DbOverwriteKeeps(s: State, key: Key, value: Value)
    requires Valid(s) && key in s.db && Stored(value)
    ensures Counts(s)
    ensures var s' := DbOverwrite(s, key, value);
      Valid(s') && s'.clients == s.clients && s.readySet <= s'.readySet && s'.db == s.db[key := value]
  {
    SignalKeeps(s, key, StreamType, []);
  }

  /** The key is queued when it is overwritten: it was queued already, or it held a stream and somebody is
      blocked on a stream or by a module, in which case signalKeyAsReady goes through for a key with waiters. */
  predicate QueuedOnOverwrite(s: State, key: Key)
    requires Counts(s) && key in s.db
  {
    key in s.readySet || (s.db[key].otype == StreamType && (s.byType[OnStream] != 0 || s.byType[OnModule] != 0))
  }

  /** An overwrite after which somebody waits for what is there, and nothing will look at the key. */
  ghost predicate LosesWakeup(s: State, key: Key, value: Value)
    requires Counts(s) && key in s.db
  {
    Poppable(value.otype) && Awaited(s, key, value.otype) && !QueuedOnOverwrite(s, key)
  }

  /** Overwriting keeps every wakeup exactly when nobody waits for the new value at that key, or the key is
      queued anyway. */
  lemma DbOverwriteExact(s: State, key: Key, value: Value)
    requires Valid(s) && NoLost(s, {}) && key in s.db && Stored(value)
    ensures Counts(s)
    ensures NoLost(DbOverwrite(s, key, value), {}) <==> !LosesWakeup(s, key, value)
  {
    DbOverwriteKeeps(s, key, value);
    OverwriteQueues(s, key, value);
    OverwrittenWakeups(s.clients, s.db, s.readySet, DbOverwrite(s, key, value).readySet, key, value);
  }

  lemma OverwriteQueues(s: State, key: Key, value: Value)
    requires Valid(s) && key in s.db && Counts(s)
    ensures Awaited(s, key, value.otype) ==>
      (key in DbOverwrite(s, key, value).readySet <==> QueuedOnOverwrite(s, key))
  {
    if c :| c in s.clients && WaitsFor(s.clients[c], key, value.otype) {
      assert key in s.blocking;
    }
  }

  /** Whatever was lost before, an overwrite loses at most the wakeups at its own key. */
  lemma OverwriteLosesOnly(s: State, key: Key, value: Value, lost: set<Key>)
    requires Valid(s) && NoLost(s, lost) && key in s.db && Stored(value)
    ensures Counts(s)
    ensures NoLost(DbOverwrite(s, key, value), lost + (if LosesWakeup(s, key, value) then {key} else {}))
  {
    DbOverwriteKeeps(s, key, value);
    OverwriteQueues(s, key, value);
    var s', lost' := DbOverwrite(s, key, value), lost + (if LosesWakeup(s, key, value) then {key} else {});
    forall c, k | c in s'.clients && k in s'.clients[c].keys && k in s'.db
      && Poppable(s'.db[k].otype) && WaitsFor(s'.clients[c], k, s'.db[k].otype)
      ensures k in s'.readySet + lost'
    {
      if k == key {
        assert Awaited(s, key, value.otype);
      } else {
        assert k in s.readySet + lost;
      }
    }
  }

  lemma OverwrittenWakeups(
      clients: Clients, db: map<Key, Value>, ready: set<Key>, ready': set<Key>, key: Key, value: Value)
    requires NoLostWakeup(clients, db, ready + {}) && ready <= ready' && key in db
    ensures NoLostWakeup(clients, db[key := value], ready' + {})
       <==> !Poppable(value.otype) || key in ready'
            || !(exists c :: c in clients && WaitsFor(clients[c], key, value.otype))
  {
    var db' := db[key := value];
    if Poppable(value.otype) && key !in ready' {
      if c :| c in clients && WaitsFor(clients[c], key, value.otype) {
        assert key in clients[c].keys && key in db' && key !in ready' + {};
      }
    }
  }

  // ----- serving one client

  function Min(a: nat, b: nat): nat {
    if a < b then a else b
  }

  // Pops n elements of a key and deletes the key if nothing is left.
  function PopDb(db: map<Key, Value>, key: Key, n: nat, fromHead: bool): map<Key, Value>
    requires key in db && n <= |db[key].items|
  {
    var left := PopItems(db[key].items, n, fromHead);
    if left == [] then db - {key} else db[key := db[key].(items := left)]
  }

  // Pops one element of a list, pushes it to another or the same, and deletes the first if it is empty.
  function MoveDb(db: map<Key, Value>, key: Key, dst: Key, fromHead: bool, toHead: bool): map<Key, Value>
    requires key in db && dst in db && db[key].items != []
  {
    var x := Popped(db[key].items, 1, fromHead)[0];
    var db1 := db[key := db[key].(items := PopItems(db[key].items, 1, fromHead))];
    var db2 := db1[dst := db1[dst].(items := PushItem(db1[dst].items, x, toHead))];
    if db2[key].items == [] then db2 - {key} else db2
  }

  predicate Servable(s: State, key: Key, c: ClientId) {
    && Counts(s) && c in s.clients && key in s.db && Poppable(s.db[key].otype)
    && s.db[key].items != [] && s.clients[c].count >= 1
  }

  /** What a blocked client is given: serveClientBlockedOnList, and genericZpopCommand for one key. */
  function Give(s: State, key: Key, c: ClientId): State
    requires Servable(s, key, c)
  {
    var client, items := s.clients[c], s.db[key].items;
    if client.target.None? || s.db[key].otype == ZsetType then
      s.(db := PopDb(s.db, key, Min(client.count, |items|), client.fromHead))
    else
      var dst := client.target.value;
      if dst in s.db && s.db[dst].otype != ListType then s
      else
        var s1 := if dst in s.db then s else DbAdd(s, dst, Value(ListType, []));
        assert s1.db == if dst in s.db then s.db else s.db[dst := Value(ListType, [])];
        s1.(db := MoveDb(s1.db, key, dst, client.fromHead, client.toHead))
  }

  // Longer or shorter values of the type that was there, or fewer keys.
  ghost predicate Reshaped(db: map<Key, Value>, db': map<Key, Value>) {
    forall k :: k in db' ==> k in db && db[k].otype == db'[k].otype
  }

  lemma ReshapeKeeps(s: State, db': map<Key, Value>, rest: seq<Key>, pending: set<Key>)
    requires Consistent(s) && ReadyWith(s, rest) && NoLost(s, pending) && Reshaped(s.db, db')
    ensures Consistent(s.(db := db')) && ReadyWith(s.(db := db'), rest) && NoLost(s.(db := db'), pending)
  {
  }

  lemma PopReshapes(db: map<Key, Value>, key: Key, n: nat, fromHead: bool)
    requires NoEmptyValues(db) && key in db && n <= |db[key].items|
    ensures Reshaped(db, PopDb(db, key, n, fromHead)) && NoEmptyValues(PopDb(db, key, n, fromHead))
  {
  }

  lemma MoveReshapes(db: map<Key, Value>, key: Key, dst: Key, fromHead: bool, toHead: bool)
    requires key in db && dst in db && db[key].items != []
    requires forall k :: k in db && k != dst && Poppable(db[k].otype) ==> db[k].items != []
    ensures Reshaped(db, MoveDb(db, key, dst, fromHead, toHead))
    ensures NoEmptyValues(MoveDb(db, key, dst, fromHead, toHead))
  {
  }

  /** What serving keeps, up to the client being unblocked. */
  ghost predicate Kept(s: State, s': State, key: Key, rest: seq<Key>, pending: set<Key>) {
    && Consistent(s') && ReadyWith(s', rest) && NoLost(s', pending) && NoEmptyValues(s'.db)
    && s'.clients == s.clients && s'.blockedClients == s.blockedClients
    && (key in s'.db ==> key in s.db && s'.db[key].otype == s.db[key].otype)
  }

  lemma ReshapeKept(s: State, s1: State, db': map<Key, Value>, key: Key, rest: seq<Key>, pending: set<Key>)
    requires Consistent(s1) && ReadyWith(s1, rest) && NoLost(s1, pending) && Reshaped(s1.db, db') && NoEmptyValues(db')
    requires s1.clients == s.clients && s1.blockedClients == s.blockedClients
    requires key in s.db && key in s1.db && s.db[key].otype == s1.db[key].otype
    ensures Kept(s, s1.(db := db'), key, rest, pending)
  {
    ReshapeKeeps(s1, db', rest, pending);
  }

  lemma CreateKeeps(s: State, key: Key, dst: Key, fromHead: bool, toHead: bool, rest: seq<Key>, pending: set<Key>)
    requires Consistent(s) && ReadyWith(s, rest) && NoLost(s, pending) && NoEmptyValues(s.db)
    requires key in s.db && s.db[key].items != [] && dst !in s.db
    ensures Counts(s) && DbAdd(s, dst, Value(ListType, [])).db == s.db[dst := Value(ListType, [])]
    ensures var s1 := DbAdd(s, dst, Value(ListType, []));
      Kept(s, s1.(db := MoveDb(s1.db, key, dst, fromHead, toHead)), key, rest, pending)
  {
    DbAddKeeps(s, dst, Value(ListType, []), rest, pending);
    var s1 := DbAdd(s, dst, Value(ListType, []));
    MoveReshapes(s1.db, key, dst, fromHead, toHead);
    ReshapeKept(s, s1, MoveDb(s1.db, key, dst, fromHead, toHead), key, rest, pending);
  }

  lemma GiveKeeps(s: State, key: Key, c: ClientId, rest: seq<Key>, pending: set<Key>)
    requires Consistent(s) && ReadyWith(s, rest) && NoLost(s, pending) && NoEmptyValues(s.db) && Servable(s, key, c)
    ensures Kept(s, Give(s, key, c), key, rest, pending)
  {
    var client := s.clients[c];
    if client.target.None? || s.db[key].otype == ZsetType {
      PopReshapes(s.db, key, Min(client.count, |s.db[key].items|), client.fromHead);
      ReshapeKept(s, s, Give(s, key, c).db, key, rest, pending);
    } else {
      var dst := client.target.value;
      if dst !in s.db {
        CreateKeeps(s, key, dst, client.fromHead, client.toHead, rest, pending);
      } else if s.db[dst].otype == ListType {
        MoveReshapes(s.db, key, dst, client.fromHead, client.toHead);
        ReshapeKept(s, s, Give(s, key, c).db, key, rest, pending);
      }
    }
  }
}
