/** The operations of blocked.c as steps from one server state to the next, and the invariant that
    each of them keeps. */
module BlockedSteps {
  import opened Options
  import opened BlockedModel

  /** Every part of the server that blocking touches. since and clock record when each client last
      blocked; nothing reads them. */
  datatype State = State(
    clients: Clients,
    blocking: Index,                   // db->blocking_keys of every database
    readyQueue: seq<Key>,              // server.ready_keys
    readySet: set<Key>,                // db->ready_keys of every database
    blockedClients: int,
    byType: map<BlockType, int>,
    unblockedClients: seq<ClientId>,
    db: map<Key, Value>,
    since: map<ClientId, nat>,
    clock: nat)

  /** The index is two-way, the counters count, the flags and lists agree. */
  ghost predicate Consistent(s: State) {
    && Indexed(s.clients, s.blocking)
    && KeysMatchTypes(s.clients)
    && Counted(s.clients, s.blockedClients, s.byType)
    && Queued(s.clients, s.unblockedClients)
    && Stamped(s.blocking, s.since, s.clock)
  }

  /** The db ready_keys tables hold exactly the keys of the list being worked off and of the new
      list, each once. */
  ghost predicate ReadyWith(s: State, rest: seq<Key>) {
    && NoDuplicates(rest + s.readyQueue)
    && forall k :: k in s.readySet <==> k in rest + s.readyQueue
  }

  ghost predicate Valid(s: State) {
    Consistent(s) && ReadyWith(s, []) && NoEmptyValues(s.db)
  }

  /** No client waits for a value that is there, unless the key is queued to be looked at. */
  ghost predicate NoLost(s: State, pending: set<Key>) {
    NoLostWakeup(s.clients, s.db, s.readySet + pending)
  }

  // ----- blocking and unblocking

  /** queueClientForReprocessing. */
  function Requeue(s: State, c: ClientId): State
    requires c in s.clients
  {
    if s.clients[c].unblocked then s
    else s.(clients := s.clients[c := s.clients[c].(unblocked := true)],
            unblockedClients := s.unblockedClients + [c])
  }

  /** The head of the loop of processUnblockedClients. */
  function TakeUnblocked(s: State): State
    requires s.unblockedClients != [] && s.unblockedClients[0] in s.clients
  {
    var c := s.unblockedClients[0];
    s.(unblockedClients := s.unblockedClients[1..],
       clients := s.clients[c := s.clients[c].(unblocked := false)])
  }

  predicate CanUnblock(s: State, c: ClientId) {
    c in s.clients && s.clients[c].btype != NotBlocked && s.clients[c].btype in s.byType
  }

  // A client as unblockClient leaves it.
  function Freed(client: Client): Client {
    client.(btype := NotBlocked, keys := {}, target := None, unblocked := true)
  }

  /** unblockClient: leave every list, count one less, and queue for reprocessing. */
  function Unblock(s: State, c: ClientId): State
    requires CanUnblock(s, c)
  {
    var t := s.clients[c].btype;
    var freed := s.clients[c].(btype := NotBlocked, keys := {}, target := None);
    Requeue(
      s.(blocking := RemoveWaiter(s.blocking, c, s.clients[c].keys),
         clients := s.clients[c := freed],
         blockedClients := s.blockedClients - 1,
         byType := s.byType[t := s.byType[t] - 1]),
      c)
  }

  /** blockForKeys, with the blockClient at its end; how carries all but the key table. */
  function Block(s: State, c: ClientId, how: Client, keys: seq<Key>): State
    requires c in s.clients && how.btype in s.byType
  {
    var table := set k | k in keys;
    s.(blocking := AddWaiter(s.blocking, c, table),
       clients := s.clients[c := how.(keys := table, unblocked := s.clients[c].unblocked)],
       blockedClients := s.blockedClients + 1,
       byType := s.byType[how.btype := s.byType[how.btype] + 1],
       since := s.since[c := s.clock],
       clock := s.clock + 1)
  }

  lemma RequeueKeeps(clients: Clients, unblocked: seq<ClientId>, c: ClientId)
    requires Queued(clients, unblocked) && c in clients
    ensures Queued(clients[c := clients[c].(unblocked := true)],
                   if clients[c].unblocked then unblocked else unblocked + [c])
  {
  }

  // Clients that differ in the flag of one of them only.
  lemma FlagOnly(s: State, c: ClientId, flag: bool)
    requires Consistent(s) && c in s.clients
    ensures var after := s.clients[c := s.clients[c].(unblocked := flag)];
      Indexed(after, s.blocking) && KeysMatchTypes(after) && Counted(after, s.blockedClients, s.byType)
  {
    var after := s.clients[c := s.clients[c].(unblocked := flag)];
    assert AllBlocked(s.clients) == AllBlocked(after);
    assert forall t :: OfType(s.clients, t) == OfType(after, t);
  }

  lemma TakeUnblockedKeeps(s: State, lost: set<Key>)
    requires Valid(s) && s.unblockedClients != []
    ensures s.unblockedClients[0] in s.clients && Valid(TakeUnblocked(s))
    ensures NoLost(s, lost) ==> NoLost(TakeUnblocked(s), lost)
  {
    FlagOnly(s, s.unblockedClients[0], false);
  }

  lemma UnblockKeeps(s: State, c: ClientId)
    requires Consistent(s) && c in s.clients && s.clients[c].btype != NotBlocked
    ensures CanUnblock(s, c)
    ensures Consistent(Unblock(s, c))
    ensures Unblock(s, c).blockedClients == s.blockedClients - 1 >= 0
    ensures forall t :: t != NotBlocked ==> Unblock(s, c).byType[t] >= 0
    ensures Unblock(s, c).clients == s.clients[c := Freed(s.clients[c])]
    ensures Unblock(s, c).db == s.db && Unblock(s, c).readySet == s.readySet && Unblock(s, c).readyQueue == s.readyQueue
  {
    var t := s.clients[c].btype;
    assert t in s.byType;
    var freed := s.clients[c].(btype := NotBlocked, keys := {}, target := None);
    var s' := Unblock(s, c);
    var after := s.clients[c := freed.(unblocked := true)];
    assert s'.clients == after;
    assert Indexed(after, s'.blocking) by {
      RemoveWaiterKeeps(s.clients, s.blocking, c, freed.(unblocked := true));
    }
    assert Stamped(s'.blocking, s.since, s.clock) by {
      RemoveWaiterStamped(s.blocking, s.since, s.clock, c, s.clients[c].keys);
    }
    UnblockCounts(s.clients, s.blockedClients, s.byType, c, freed.(unblocked := true));
    assert Queued(after, s'.unblockedClients) by {
      SameFlag(s.clients, s.unblockedClients, c, freed);
      RequeueKeeps(s.clients[c := freed], s.unblockedClients, c);
    }
    TypesUpdate(s.clients, c, freed.(unblocked := true));
  }

  lemma SameFlag(clients: Clients, unblocked: seq<ClientId>, c: ClientId, client: Client)
    requires Queued(clients, unblocked) && c in clients && client.unblocked == clients[c].unblocked
    ensures Queued(clients[c := client], unblocked)
  {
  }

  lemma TypesUpdate(clients: Clients, c: ClientId, client: Client)
    requires KeysMatchTypes(clients) && client.count >= 1
    requires client.keys != {} ==> OnKeys(client.btype) || client.btype == OnModule
    requires OnKeys(client.btype) ==> client.keys != {}
    ensures KeysMatchTypes(clients[c := client])
  {
  }

  lemma BlockKeeps(s: State, c: ClientId, how: Client, keys: seq<Key>)
    requires Valid(s) && c in s.clients && s.clients[c].btype == NotBlocked
    requires (OnKeys(how.btype) || how.btype == OnModule) && keys != [] && how.count >= 1
    ensures how.btype in s.byType && Valid(Block(s, c, how, keys))
  {
    var table := set k | k in keys;
    assert keys[0] in table;
    var client := how.(keys := table, unblocked := s.clients[c].unblocked);
    assert how.btype in s.byType;
    var s' := Block(s, c, how, keys);
    assert Indexed(s'.clients, s'.blocking) by {
      AddWaiterKeeps(s.clients, s.blocking, c, client);
    }
    assert Counted(s'.clients, s'.blockedClients, s'.byType) by {
      BlockCounts(s.clients, s.blockedClients, s.byType, c, client);
    }
    assert Stamped(s'.blocking, s'.since, s'.clock) by {
      AddWaiterStamped(s.blocking, s.since, s.clock, c, table);
    }
    SameFlag(s.clients, s.unblockedClients, c, client);
    TypesUpdate(s.clients, c, client);
  }
}
