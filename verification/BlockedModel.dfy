/** Values behind blocked.c: clients, the index from keys to waiting clients, and the counters. */
module BlockedModel {
  import opened Options

  type ClientId = nat

  datatype Key = Key(dbid: nat, name: string)

  datatype ObjectType = ListType | ZsetType | StreamType | ModuleType | PlainType

  /** A stored value; lists and sorted sets show their elements in order. */
  datatype Value = Value(otype: ObjectType, items: seq<string>)

  datatype BlockType = NotBlocked | OnList | OnZset | OnStream | OnModule | OnWait | OnPostpone | OnShutdown

  /** The blocking state of a client. keys is bpop.keys, unblocked the CLIENT_UNBLOCKED flag. */
  datatype Client = Client(
    btype: BlockType, keys: set<Key>, target: Option<Key>, count: nat,
    fromHead: bool, toHead: bool, unblocked: bool)

  type Clients = map<ClientId, Client>
  type Index = map<Key, seq<ClientId>>

  // getBlockedTypeByType
  function BlockedFor(otype: ObjectType): BlockType {
    match otype
    case ListType => OnList
    case ZsetType => OnZset
    case ModuleType => OnModule
    case StreamType => OnStream
    case PlainType => NotBlocked
  }

  predicate Poppable(otype: ObjectType) {
    otype == ListType || otype == ZsetType
  }

  predicate OnKeys(t: BlockType) {
    t == OnList || t == OnZset || t == OnStream
  }

  // ----- the two-way index

  predicate NoDuplicates<T(==)>(s: seq<T>) {
    forall i, j :: 0 <= i < j < |s| ==> s[i] != s[j]
  }

  /** Client c is listed for key k, once, exactly when k is in c's own table, and no list is empty. */
  ghost predicate Indexed(clients: Clients, blocking: Index) {
    && (forall k :: k in blocking ==> blocking[k] != [] && NoDuplicates(blocking[k]))
    && (forall k, c :: k in blocking && c in blocking[k] ==> c in clients && k in clients[c].keys)
    && (forall c, k :: c in clients && k in clients[c].keys ==> k in blocking && c in blocking[k])
  }

  // Clients that are not blocked wait on no key; those blocked on data wait on some.
  ghost predicate KeysMatchTypes(clients: Clients) {
    forall c :: c in clients ==>
      && (clients[c].keys != {} ==> OnKeys(clients[c].btype) || clients[c].btype == OnModule)
      && (OnKeys(clients[c].btype) ==> clients[c].keys != {})
      && clients[c].count >= 1
  }

  function Without<T(==)>(s: seq<T>, x: T): (r: seq<T>)
    ensures |r| <= |s|
  {
    if s == [] then []
    else if s[0] == x then Without(s[1..], x)
    else [s[0]] + Without(s[1..], x)
  }

  lemma {:induction false} WithoutMember<T>(s: seq<T>, x: T, y: T)
    ensures y in Without(s, x) <==> y in s && y != x
  {
    if s != [] {
      WithoutMember(s[1..], x, y);
      assert y in s <==> y == s[0] || y in s[1..];
    }
  }

  lemma {:induction false} WithoutDistinct<T>(s: seq<T>, x: T)
    requires NoDuplicates(s)
    ensures NoDuplicates(Without(s, x))
  {
    if s != [] {
      WithoutDistinct(s[1..], x);
      WithoutMember(s[1..], x, s[0]);
    }
  }

  /** The index with c appended for these keys. */
  function AddWaiter(blocking: Index, c: ClientId, keys: set<Key>): Index {
    map k | k in blocking.Keys + keys ::
      (if k in blocking then blocking[k] else []) + (if k in keys then [c] else [])
  }

  /** The index with c removed for these keys, and lists that became empty dropped. */
  function RemoveWaiter(blocking: Index, c: ClientId, keys: set<Key>): Index {
    map k | k in blocking && (k in keys ==> Without(blocking[k], c) != []) ::
      if k in keys then Without(blocking[k], c) else blocking[k]
  }

  lemma AddWaiterKeeps(clients: Clients, blocking: Index, c: ClientId, client: Client)
    requires Indexed(clients, blocking) && c in clients && clients[c].keys == {}
    ensures Indexed(clients[c := client], AddWaiter(blocking, c, client.keys))
  {
    var b := AddWaiter(blocking, c, client.keys);
    forall k | k in b ensures b[k] != [] && NoDuplicates(b[k]) {
      if k in blocking {
        assert c !in blocking[k];
      }
    }
  }

  lemma RemoveWaiterKeeps(clients: Clients, blocking: Index, c: ClientId, client: Client)
    requires Indexed(clients, blocking) && c in clients && client.keys == {}
    ensures Indexed(clients[c := client], RemoveWaiter(blocking, c, clients[c].keys))
  {
    var clients', b := clients[c := client], RemoveWaiter(blocking, c, clients[c].keys);
    forall k | k in b ensures b[k] != [] && NoDuplicates(b[k]) {
      WithoutDistinct(blocking[k], c);
    }
    forall k, d | k in b && d in b[k] ensures d in clients' && k in clients'[d].keys {
      WithoutMember(blocking[k], c, d);
    }
    forall d, k | d in clients' && k in clients'[d].keys ensures k in b && d in b[k] {
      assert d != c && d in blocking[k];
      WithoutMember(blocking[k], c, d);
    }
  }

  // ----- the counters

  function AllBlocked(clients: Clients): set<ClientId> {
    set c | c in clients && clients[c].btype != NotBlocked
  }

  function OfType(clients: Clients, t: BlockType): set<ClientId> {
    set c | c in clients && clients[c].btype == t
  }

  ghost predicate Counted(clients: Clients, blockedClients: int, byType: map<BlockType, int>) {
    && blockedClients == |AllBlocked(clients)|
    && forall t :: t != NotBlocked ==> t in byType && byType[t] == |OfType(clients, t)|
  }

  // Adding or removing one client from the blocked ones.
  lemma OneMore(clients: Clients, c: ClientId, client: Client, t: BlockType)
    requires c in clients && clients[c].btype == NotBlocked && client.btype != NotBlocked && t != NotBlocked
    ensures |AllBlocked(clients[c := client])| == |AllBlocked(clients)| + 1
    ensures |OfType(clients[c := client], t)| == |OfType(clients, t)| + (if t == client.btype then 1 else 0)
  {
    var clients' := clients[c := client];
    OneMoreElement(AllBlocked(clients), AllBlocked(clients'), c);
    if t == client.btype {
      OneMoreElement(OfType(clients, t), OfType(clients', t), c);
    } else {
      assert OfType(clients', t) == OfType(clients, t);
    }
  }

  lemma OneMoreElement(s: set<ClientId>, s': set<ClientId>, c: ClientId)
    requires c !in s && c in s' && forall d :: d != c ==> (d in s <==> d in s')
    ensures |s'| == |s| + 1
  {
    assert s' == s + {c};
  }

  lemma BlockCounts(clients: Clients, n: int, byType: map<BlockType, int>, c: ClientId, client: Client)
    requires Counted(clients, n, byType) && c in clients && clients[c].btype == NotBlocked
    requires client.btype != NotBlocked
    ensures Counted(clients[c := client], n + 1, byType[client.btype := byType[client.btype] + 1])
  {
    forall t | t != NotBlocked
      ensures |OfType(clients[c := client], t)| == |OfType(clients, t)| + (if t == client.btype then 1 else 0)
    {
      OneMore(clients, c, client, t);
    }
    OneMore(clients, c, client, client.btype);
  }

  lemma UnblockCounts(clients: Clients, n: int, byType: map<BlockType, int>, c: ClientId, client: Client)
    requires Counted(clients, n, byType) && c in clients && clients[c].btype != NotBlocked
    requires client.btype == NotBlocked
    ensures Counted(clients[c := client], n - 1, byType[clients[c].btype := byType[clients[c].btype] - 1])
    ensures n > 0 && byType[clients[c].btype] > 0
  {
    var clients' := clients[c := client];
    assert clients'[c := clients[c]] == clients;
    forall t | t != NotBlocked
      ensures |OfType(clients, t)| == |OfType(clients', t)| + (if t == clients[c].btype then 1 else 0)
    {
      OneMore(clients', c, clients[c], t);
    }
    OneMore(clients', c, clients[c], clients[c].btype);
  }

  // ----- the list of unblocked clients

  ghost predicate Queued(clients: Clients, unblocked: seq<ClientId>) {
    && NoDuplicates(unblocked)
    && (forall c :: c in unblocked ==> c in clients)
    && forall c :: c in clients ==> (c in unblocked <==> clients[c].unblocked)
  }

  // ----- lost wakeups

  predicate WaitsFor(client: Client, k: Key, otype: ObjectType) {
    k in client.keys && client.btype == BlockedFor(otype)
  }

  /** Every client that waits for a list or sorted set stored at a key has that key pending. */
  ghost predicate NoLostWakeup(clients: Clients, db: map<Key, Value>, pending: set<Key>) {
    forall c, k :: c in clients && k in clients[c].keys && k in db ==>
      Poppable(db[k].otype) && WaitsFor(clients[c], k, db[k].otype) ==> k in pending
  }

  ghost predicate NoEmptyValues(db: map<Key, Value>) {
    forall k :: k in db && Poppable(db[k].otype) ==> db[k].items != []
  }

  // ----- the order of waiting

  // In every list, clients stand in the order in which they blocked.
  ghost predicate Stamped(blocking: Index, since: map<ClientId, nat>, clock: nat) {
    && (forall k, i, j :: k in blocking && 0 <= i < j < |blocking[k]| ==>
          && blocking[k][i] in since && blocking[k][j] in since
          && since[blocking[k][i]] < since[blocking[k][j]])
    && (forall k, c :: k in blocking && c in blocking[k] ==> c in since && since[c] < clock)
  }

  lemma AddWaiterStamped(blocking: Index, since: map<ClientId, nat>, clock: nat, c: ClientId, keys: set<Key>)
    requires Stamped(blocking, since, clock)
    requires forall k :: k in blocking ==> c !in blocking[k]
    ensures Stamped(AddWaiter(blocking, c, keys), since[c := clock], clock + 1)
  {
  }

  lemma {:induction false} WithoutOrder(s: seq<ClientId>, x: ClientId, i: nat, j: nat) returns (i': nat, j': nat)
    requires i < j < |Without(s, x)|
    ensures i' < j' < |s| && Without(s, x)[i] == s[i'] && Without(s, x)[j] == s[j']
  {
    if s[0] == x {
      var a, b := WithoutOrder(s[1..], x, i, j);
      return a + 1, b + 1;
    } else if i == 0 {
      WithoutMember(s[1..], x, Without(s, x)[j]);
      assert Without(s, x)[j] == Without(s[1..], x)[j - 1];
      var b :| 0 <= b < |s[1..]| && s[1..][b] == Without(s, x)[j];
      return 0, b + 1;
    } else {
      var a, b := WithoutOrder(s[1..], x, i - 1, j - 1);
      return a + 1, b + 1;
    }
  }

  lemma RemoveWaiterStamped(blocking: Index, since: map<ClientId, nat>, clock: nat, c: ClientId, keys: set<Key>)
    requires Stamped(blocking, since, clock)
    ensures Stamped(RemoveWaiter(blocking, c, keys), since, clock)
  {
    var b := RemoveWaiter(blocking, c, keys);
    forall k, i, j | k in b && 0 <= i < j < |b[k]|
      ensures b[k][i] in since && b[k][j] in since && since[b[k][i]] < since[b[k][j]]
    {
      if k in keys {
        var i', j' := WithoutOrder(blocking[k], c, i, j);
      }
    }
    forall k, d | k in b && d in b[k] ensures d in since && since[d] < clock {
      WithoutMember(blocking[k], c, d);
    }
  }

  // ----- popping and pushing

  // n elements off one end.
  function PopItems(items: seq<string>, n: nat, fromHead: bool): seq<string>
    requires n <= |items|
  {
    if fromHead then items[n..] else items[..|items| - n]
  }

  function Popped(items: seq<string>, n: nat, fromHead: bool): seq<string>
    requires n <= |items|
  {
    if fromHead then items[..n] else items[|items| - n..]
  }

  function PushItem(items: seq<string>, x: string, toHead: bool): seq<string> {
    if toHead then [x] + items else items + [x]
  }
}
