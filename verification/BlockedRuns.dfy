/** Whole runs of a server with blocking clients. */
module BlockedRuns {
  import opened Options
  import opened BlockedModel
  import opened BlockedSteps
  import opened BlockedServe
  import opened BlockedHandle

  /** What can happen: a client blocks, is unblocked (timeout, CLIENT UNBLOCK, disconnection), has its
      input processed; a command creates, deletes, overwrites or edits keys; ready keys are handled. */
  datatype Event =
    | Blocks(c: ClientId, how: Client, keys: seq<Key>)
    | Unblocks(c: ClientId)
    | Reprocesses
    | Adds(key: Key, value: Value)
    | Deletes(key: Key)
    | Overwrites(key: Key, value: Value)
    | Edits(db: map<Key, Value>)
    | HandlesReadyKeys

  /** When an event can happen. Commands block only when none of their keys can serve them at once, and
      edit lists and sorted sets without changing types or leaving them empty. */
  ghost predicate Enabled(s: State, e: Event) {
    match e
    case Blocks(c, how, keys) =>
      && c in s.clients && s.clients[c].btype == NotBlocked
      && (OnKeys(how.btype) || how.btype == OnModule) && keys != [] && how.count >= 1
      && forall k :: k in keys && k in s.db && Poppable(s.db[k].otype) ==>
           how.btype != BlockedFor(s.db[k].otype)
    case Unblocks(c) => c in s.clients && s.clients[c].btype != NotBlocked
    case Reprocesses => s.unblockedClients != []
    case Adds(key, value) => key !in s.db && Stored(value)
    case Deletes(_) => true
    case Overwrites(key, value) => key in s.db && Stored(value)
    case Edits(db) => Reshaped(s.db, db) && NoEmptyValues(db)
    case HandlesReadyKeys => true
  }

  ghost function Next(s: State, e: Event): State
    requires Valid(s) && Enabled(s, e)
  {
    match e
    case Blocks(c, how, keys) => BlockKeeps(s, c, how, keys); Block(s, c, how, keys)
    case Unblocks(c) => UnblockKeeps(s, c); Unblock(s, c)
    case Reprocesses => TakeUnblockedKeeps(s, {}); TakeUnblocked(s)
    case Adds(key, value) => DbAddKeeps(s, key, value, [], {}); DbAdd(s, key, value)
    case Deletes(key) => DbDelete(s, key)
    case Overwrites(key, value) => DbOverwriteKeeps(s, key, value); DbOverwrite(s, key, value)
    case Edits(db) => s.(db := db)
    case HandlesReadyKeys => Handle(s)
  }

  /** The keys whose wakeups an event loses: an overwrite can lose those at its own key, nothing else any. */
  ghost function Loses(s: State, e: Event): set<Key>
    requires Valid(s) && Enabled(s, e)
  {
    if e.Overwrites? && (DbOverwriteKeeps(s, e.key, e.value); LosesWakeup(s, e.key, e.value)) then {e.key} else {}
  }

  lemma BlocksKeeps(s: State, c: ClientId, how: Client, keys: seq<Key>, lost: set<Key>)
    requires Valid(s) && NoLost(s, lost) && Enabled(s, Blocks(c, how, keys))
    ensures Valid(Next(s, Blocks(c, how, keys))) && NoLost(Next(s, Blocks(c, how, keys)), lost)
  {
    BlockKeeps(s, c, how, keys);
    BlockLosesNothing(s, c, how, keys, lost);
  }

  lemma UnblocksKeeps(s: State, c: ClientId, lost: set<Key>)
    requires Valid(s) && NoLost(s, lost) && Enabled(s, Unblocks(c))
    ensures Valid(Next(s, Unblocks(c))) && NoLost(Next(s, Unblocks(c)), lost)
  {
    UnblockKeeps(s, c);
    FreedWaitsForNothing(s.clients, s.db, s.readySet + lost, c);
  }

  lemma AddsKeeps(s: State, key: Key, value: Value, lost: set<Key>)
    requires Valid(s) && NoLost(s, lost) && Enabled(s, Adds(key, value))
    ensures Valid(Next(s, Adds(key, value))) && NoLost(Next(s, Adds(key, value)), lost)
  {
    DbAddKeeps(s, key, value, [], lost);
  }

  lemma OverwritesKeeps(s: State, key: Key, value: Value, lost: set<Key>)
    requires Valid(s) && NoLost(s, lost) && Enabled(s, Overwrites(key, value))
    ensures Valid(Next(s, Overwrites(key, value)))
    ensures NoLost(Next(s, Overwrites(key, value)), lost + Loses(s, Overwrites(key, value)))
  {
    DbOverwriteKeeps(s, key, value);
    OverwriteLosesOnly(s, key, value, lost);
  }

  /** Every event keeps the server consistent, and no wakeup is lost but by an overwrite that meets the
      condition of DbOverwriteExact. */
  lemma NextKeeps(s: State, e: Event, lost: set<Key>)
    requires Valid(s) && NoLost(s, lost) && Enabled(s, e)
    ensures Valid(Next(s, e)) && NoLost(Next(s, e), lost + Loses(s, e))
  {
    assert lost + {} == lost;
    match e
    case Blocks(c, how, keys) => BlocksKeeps(s, c, how, keys, lost);
    case Unblocks(c) => UnblocksKeeps(s, c, lost);
    case Reprocesses => TakeUnblockedKeeps(s, lost);
    case Adds(key, value) => AddsKeeps(s, key, value, lost);
    case Deletes(key) => DbDeleteKeeps(s, key, lost);
    case Overwrites(key, value) => OverwritesKeeps(s, key, value, lost);
    case Edits(db) => ReshapeKeeps(s, db, [], lost);
    case HandlesReadyKeys => HandleServesEverybody(s, lost);
  }

  lemma BlockLosesNothing(s: State, c: ClientId, how: Client, keys: seq<Key>, lost: set<Key>)
    requires NoLost(s, lost) && Enabled(s, Blocks(c, how, keys)) && how.btype in s.byType
    ensures NoLost(Block(s, c, how, keys), lost)
  {
  }

  /** The state after a run, and the keys at which its overwrites lost a wakeup; an event that cannot happen
      does not. Over every interleaving, the index stays two-way, the counters count, the flags agree with
      the lists, and no wakeup is lost at any other key. */
  ghost function After(s: State, events: seq<Event>): (r: (State, set<Key>))
    requires Valid(s) && NoLost(s, {})
    ensures Valid(r.0) && NoLost(r.0, r.1)
    decreases |events|
  {
    if events == [] then (s, {})
    else
      var (before, lost) := After(s, events[..|events| - 1]);
      var e := events[|events| - 1];
      if Enabled(before, e) then
        NextKeeps(before, e, lost);
        (Next(before, e), lost + Loses(before, e))
      else (before, lost)
  }

  /** Clients of one key are served in the order in which they blocked: when a key is handled and a client
      is served, every client of that type that blocked earlier on the key has had its turn before, in a
      state first, and is unblocked in the state next in which the later one is served. */
  lemma ServedInBlockingOrder(s: State, key: Key, rest: seq<Key>, early: ClientId, late: ClientId)
      returns (i: nat, j: nat, first: State, next: State)
    requires Consistent(s) && NoEmptyValues(s.db) && ReadyWith(s, [key] + rest)
    requires key in s.db && Poppable(s.db[key].otype) && key in s.blocking
    requires early in s.blocking[key] && late in s.blocking[key]
    requires Matches(s, early, s.db[key].otype) && Served(s, HandleKey(s, key, rest), late)
    requires early in s.since && late in s.since && s.since[early] < s.since[late]
    ensures var s1, waiting, otype := s.(readySet := s.readySet - {key}), s.blocking[key], s.db[key].otype;
      && i < j < |waiting| && waiting[i] == early && waiting[j] == late
      && Serving(s1, key, otype, waiting, rest)
      && HandleKey(s, key, rest) == ServeAll(s1, key, otype, waiting, rest)
      && Turn(s1, key, otype, waiting, rest, i, first) && Turn(s1, key, otype, waiting, rest, j, next)
      && Serving(ServeOne(first, key, early), key, otype, waiting[i + 1..j], rest)
      && next == ServeAll(ServeOne(first, key, early), key, otype, waiting[i + 1..j], rest)
      && Served(s, next, early)
  {
    KeyTaken(s, key, rest);
    i :| i < |s.blocking[key]| && s.blocking[key][i] == early;
    j :| j < |s.blocking[key]| && s.blocking[key][j] == late;
    assert i < j;
    var s1 := s.(readySet := s.readySet - {key});
    first, next := ServedInOrder(s1, key, s.db[key].otype, s.blocking[key], rest, i, j);
  }

  lemma PopSplits(items: seq<string>, fromHead: bool)
    requires items != []
    ensures multiset([Popped(items, 1, fromHead)[0]]) + multiset(PopItems(items, 1, fromHead)) == multiset(items)
  {
    var x, left := Popped(items, 1, fromHead)[0], PopItems(items, 1, fromHead);
    assert items == if fromHead then [x] + left else left + [x];
  }

  lemma PushAdds(items: seq<string>, x: string, toHead: bool)
    ensures multiset(PushItem(items, x, toHead)) == multiset(items) + multiset([x])
    ensures PushItem(items, x, toHead) != []
  {
  }

  /** Moving an element from one list to another neither loses nor copies it. */
  lemma MoveConserves(db: map<Key, Value>, key: Key, dst: Key, fromHead: bool, toHead: bool)
    requires key in db && dst in db && db[key].items != [] && dst != key
    ensures var db' := MoveDb(db, key, dst, fromHead, toHead);
      var left := if key in db' then db'[key].items else [];
      dst in db' && multiset(left) + multiset(db'[dst].items) == multiset(db[key].items) + multiset(db[dst].items)
  {
    PopSplits(db[key].items, fromHead);
    PushAdds(db[dst].items, Popped(db[key].items, 1, fromHead)[0], toHead);
  }

  /** Moving an element from a list to itself only rearranges it. */
  lemma RotationConserves(db: map<Key, Value>, key: Key, fromHead: bool, toHead: bool)
    requires key in db && db[key].items != []
    ensures var db' := MoveDb(db, key, key, fromHead, toHead);
      key in db' && multiset(db'[key].items) == multiset(db[key].items)
  {
    PopSplits(db[key].items, fromHead);
    PushAdds(PopItems(db[key].items, 1, fromHead), Popped(db[key].items, 1, fromHead)[0], toHead);
  }

  lemma IdleServer(c: ClientId) returns (s: State)
    ensures Valid(s) && NoLost(s, {}) && c in s.clients && s.clients[c].btype == NotBlocked
    ensures s.db == map[] && s.readyQueue == [] && s.blocking == map[]
    ensures s.byType[OnModule] == 0 && s.byType[OnStream] == 0
  {
    var counts := map[
      OnList := 0, OnZset := 0, OnStream := 0, OnModule := 0, OnWait := 0, OnPostpone := 0, OnShutdown := 0];
    var idle := Client(NotBlocked, {}, None, 1, true, true, false);
    s := State(map[c := idle], map[], [], {}, 0, counts, [], map[], map[], 0);
    assert AllBlocked(s.clients) == {};
    assert forall t :: t != NotBlocked ==> OfType(s.clients, t) == {};
  }

  // A server on which one client waits for a sorted set at a key that does not exist.
  lemma OneWaiter(c: ClientId, key: Key) returns (s: State)
    ensures Valid(s) && NoLost(s, {}) && c in s.clients && WaitsFor(s.clients[c], key, ZsetType)
    ensures s.db == map[] && s.readySet == {}
  {
    var s0 := IdleServer(c);
    var how := Client(OnZset, {}, None, 1, true, true, false);
    BlockKeeps(s0, c, how, [key]);
    BlockLosesNothing(s0, c, how, [key], {});
    s := Block(s0, c, how, [key]);
    assert key in [key];
  }

  /** A wakeup that is lost: a client waits for a sorted set at a key, a string is stored there, and a
      sorted set overwrites the string, as ZUNIONSTORE does. */
  lemma OverwriteCanLoseWakeup(c: ClientId, key: Key) returns (s: State, value: Value)
    ensures Valid(s) && NoLost(s, {}) && key in s.db && Stored(value) && Counts(s)
    ensures !NoLost(DbOverwrite(s, key, value), {})
  {
    var s1 := OneWaiter(c, key);
    var plain := Value(PlainType, []);
    DbAddKeeps(s1, key, plain, [], {});
    s := DbAdd(s1, key, plain);
    PlainIsNotSignalled(s1, key, plain);
    value := Value(ZsetType, ["m"]);
    DbOverwriteExact(s, key, value);
    assert c in s.clients && WaitsFor(s.clients[c], key, ZsetType);
  }

  lemma PlainIsNotSignalled(s: State, key: Key, value: Value)
    requires Counts(s) && key !in s.db && value.otype == PlainType
    ensures DbAdd(s, key, value) == s.(db := s.db[key := value])
  {
  }
}
