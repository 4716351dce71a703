/** handleClientsBlockedOnKeys: it terminates, keeps the invariant, and leaves nobody waiting for a
    value that is there. */
module BlockedHandle {
  import opened BlockedModel
  import opened BlockedSteps
  import opened BlockedServe

  // ----- one key

  /** A state in which the clients of one key are being served, the rest of the old list aside. */
  ghost predicate Serving(s: State, key: Key, otype: ObjectType, waiting: seq<ClientId>, rest: seq<Key>) {
    && Consistent(s) && ReadyWith(s, rest) && NoEmptyValues(s.db)
    && Poppable(otype) && (key in s.db ==> s.db[key].otype == otype)
    && NoDuplicates(waiting) && forall c :: c in waiting ==> c in s.clients
  }

  predicate Matches(s: State, c: ClientId, otype: ObjectType) {
    c in s.clients && s.clients[c].btype == BlockedFor(otype)
  }

  // The body of the loop for a client of the right type.
  ghost function ServeOne(s: State, key: Key, c: ClientId): State
    requires Servable(s, key, c) && CanUnblock(Give(s, key, c), c)
  {
    Unblock(Give(s, key, c), c)
  }

  lemma ServeOneKeeps(s: State, key: Key, otype: ObjectType, waiting: seq<ClientId>, rest: seq<Key>)
    requires Serving(s, key, otype, waiting, rest)
    requires waiting != [] && key in s.db && Matches(s, waiting[0], otype)
    ensures Servable(s, key, waiting[0]) && CanUnblock(Give(s, key, waiting[0]), waiting[0])
    ensures var s' := ServeOne(s, key, waiting[0]);
      && Serving(s', key, otype, waiting[1..], rest)
      && s'.blockedClients == s.blockedClients - 1 >= 0
      && s'.clients == s.clients[waiting[0] := Freed(s.clients[waiting[0]])]
  {
    var c := waiting[0];
    NothingLostSoFar(s);
    GiveKeeps(s, key, c, rest, set k | k in s.db);
    UnblockFirst(Give(s, key, c), key, otype, waiting, rest);
  }

  lemma UnblockFirst(s: State, key: Key, otype: ObjectType, waiting: seq<ClientId>, rest: seq<Key>)
    requires Serving(s, key, otype, waiting, rest)
    requires waiting != [] && s.clients[waiting[0]].btype != NotBlocked
    ensures CanUnblock(s, waiting[0])
    ensures var s' := Unblock(s, waiting[0]);
      && Serving(s', key, otype, waiting[1..], rest)
      && s'.blockedClients == s.blockedClients - 1 >= 0
      && s'.clients == s.clients[waiting[0] := Freed(s.clients[waiting[0]])]
  {
    UnblockKeeps(s, waiting[0]);
    assert forall d :: d in waiting[1..] ==> d in waiting;
  }

  // With every stored key pending, nothing is lost.
  lemma NothingLostSoFar(s: State)
    ensures NoLost(s, set k | k in s.db)
  {
  }

  lemma ServeOneLosesNothing(s: State, key: Key, c: ClientId, rest: seq<Key>, pending: set<Key>)
    requires Consistent(s) && ReadyWith(s, rest) && NoLost(s, pending) && NoEmptyValues(s.db)
    requires Servable(s, key, c) && s.clients[c].btype != NotBlocked
    ensures CanUnblock(Give(s, key, c), c) && NoLost(ServeOne(s, key, c), pending)
  {
    GiveKeeps(s, key, c, rest, pending);
    var s1 := Give(s, key, c);
    UnblockKeeps(s1, c);
    FreedWaitsForNothing(s1.clients, s1.db, s1.readySet + pending, c);
  }

  lemma FreedWaitsForNothing(clients: Clients, db: map<Key, Value>, pending: set<Key>, c: ClientId)
    requires NoLostWakeup(clients, db, pending) && c in clients
    ensures NoLostWakeup(clients[c := Freed(clients[c])], db, pending)
  {
  }

  /** The loop of serveClientsBlockedOnListKey and serveClientsBlockedOnSortedSetKey. Serving a client
      removes no other node of the list it walks, so it sees the clients as they stood. */
  ghost function ServeAll(s: State, key: Key, otype: ObjectType, waiting: seq<ClientId>, rest: seq<Key>): State
    requires Serving(s, key, otype, waiting, rest)
    decreases |waiting|
  {
    if waiting == [] || key !in s.db then s
    else if !Matches(s, waiting[0], otype) then ServeAll(s, key, otype, waiting[1..], rest)
    else
      ServeOneKeeps(s, key, otype, waiting, rest);
      ServeAll(ServeOne(s, key, waiting[0]), key, otype, waiting[1..], rest)
  }

  lemma {:induction false} ServeAllKeeps(s: State, key: Key, otype: ObjectType, waiting: seq<ClientId>, rest: seq<Key>)
    requires Serving(s, key, otype, waiting, rest)
    ensures var s' := ServeAll(s, key, otype, waiting, rest);
      && Serving(s', key, otype, [], rest)
      && (s' == s || s'.blockedClients < s.blockedClients)
      && s'.blockedClients >= 0
    decreases |waiting|
  {
    if waiting == [] || key !in s.db {
    } else if !Matches(s, waiting[0], otype) {
      ServeAllKeeps(s, key, otype, waiting[1..], rest);
    } else {
      ServeOneKeeps(s, key, otype, waiting, rest);
      ServeAllKeeps(ServeOne(s, key, waiting[0]), key, otype, waiting[1..], rest);
    }
  }

  // After the first client was served, the others are those that still wait for the key.
  lemma OthersWait(s: State, key: Key, otype: ObjectType, waiting: seq<ClientId>, rest: seq<Key>, lost: set<Key>)
    requires Serving(s, key, otype, waiting, rest) && NoLost(s, lost + {key})
    requires forall c :: c in s.clients && WaitsFor(s.clients[c], key, otype) ==> c in waiting
    requires waiting != [] && key in s.db && Matches(s, waiting[0], otype)
    ensures Servable(s, key, waiting[0]) && CanUnblock(Give(s, key, waiting[0]), waiting[0])
    ensures var s' := ServeOne(s, key, waiting[0]);
      && Serving(s', key, otype, waiting[1..], rest) && NoLost(s', lost + {key})
      && forall c :: c in s'.clients && WaitsFor(s'.clients[c], key, otype) ==> c in waiting[1..]
  {
    ServeOneKeeps(s, key, otype, waiting, rest);
    ServeOneLosesNothing(s, key, waiting[0], rest, lost + {key});
    assert forall c :: c in waiting ==> c == waiting[0] || c in waiting[1..];
  }

  /** After a key was served, no client that waits for its value needs it any more. */
  lemma {:induction false} ServeAllLosesNothing(
      s: State, key: Key, otype: ObjectType, waiting: seq<ClientId>, rest: seq<Key>, lost: set<Key>)
    requires Serving(s, key, otype, waiting, rest) && NoLost(s, lost + {key})
    requires forall c :: c in s.clients && WaitsFor(s.clients[c], key, otype) ==> c in waiting
    ensures NoLost(ServeAll(s, key, otype, waiting, rest), lost)
    decreases |waiting|
  {
    if waiting == [] || key !in s.db {
      NobodyLeft(s.clients, s.db, s.readySet, key, otype, lost);
    } else if !Matches(s, waiting[0], otype) {
      assert forall c :: c in waiting ==> c == waiting[0] || c in waiting[1..];
      ServeAllLosesNothing(s, key, otype, waiting[1..], rest, lost);
    } else {
      OthersWait(s, key, otype, waiting, rest, lost);
      ServeAllLosesNothing(ServeOne(s, key, waiting[0]), key, otype, waiting[1..], rest, lost);
    }
  }

  lemma NobodyLeft(
      clients: Clients, db: map<Key, Value>, ready: set<Key>, key: Key, otype: ObjectType, lost: set<Key>)
    requires NoLostWakeup(clients, db, ready + (lost + {key}))
    requires key in db ==> db[key].otype == otype && forall c :: c in clients ==> !WaitsFor(clients[c], key, otype)
    ensures NoLostWakeup(clients, db, ready + lost)
  {
  }

  ghost predicate Served(s: State, s': State, c: ClientId) {
    c in s.clients && c in s'.clients && s.clients[c].btype != NotBlocked && s'.clients[c].btype == NotBlocked
  }

  // Who is not in the list is not concerned, and who is unblocked stays so.
  lemma {:induction false} ServeAllOthers(
      s: State, key: Key, otype: ObjectType, waiting: seq<ClientId>, rest: seq<Key>, c: ClientId)
    requires Serving(s, key, otype, waiting, rest) && c in s.clients && c !in waiting
    ensures c in ServeAll(s, key, otype, waiting, rest).clients
    ensures ServeAll(s, key, otype, waiting, rest).clients[c] == s.clients[c]
    decreases |waiting|
  {
    if waiting == [] || key !in s.db {
    } else if !Matches(s, waiting[0], otype) {
      ServeAllOthers(s, key, otype, waiting[1..], rest, c);
    } else {
      ServeOneKeeps(s, key, otype, waiting, rest);
      ServeAllOthers(ServeOne(s, key, waiting[0]), key, otype, waiting[1..], rest, c);
    }
  }

  // ----- the order of serving

  // A key that is gone stays gone while its clients are walked.
  lemma ServeAllGone(s: State, key: Key, otype: ObjectType, waiting: seq<ClientId>, rest: seq<Key>)
    requires Serving(s, key, otype, waiting, rest) && key !in s.db
    ensures ServeAll(s, key, otype, waiting, rest) == s
  {
  }

  lemma PartServing(
      s: State, key: Key, otype: ObjectType, waiting: seq<ClientId>, rest: seq<Key>, part: seq<ClientId>,
      i: nat, j: nat)
    requires Serving(s, key, otype, waiting, rest) && i <= j <= |waiting| && part == waiting[i..j]
    ensures Serving(s, key, otype, part, rest)
  {
    assert forall c :: c in part ==> c in waiting;
  }

  /** Serving a list is serving its first clients, and then the others in the state that these leave. */
  lemma {:induction false} ServeAllSplits(
      s: State, key: Key, otype: ObjectType, waiting: seq<ClientId>, rest: seq<Key>, j: nat)
    requires Serving(s, key, otype, waiting, rest) && j <= |waiting|
    ensures Serving(s, key, otype, waiting[..j], rest)
    ensures var at := ServeAll(s, key, otype, waiting[..j], rest);
      && Serving(at, key, otype, waiting[j..], rest)
      && ServeAll(s, key, otype, waiting, rest) == ServeAll(at, key, otype, waiting[j..], rest)
    decreases |waiting|
  {
    PartServing(s, key, otype, waiting, rest, waiting[..j], 0, j);
    PartServing(s, key, otype, waiting, rest, waiting[j..], j, |waiting|);
    if j == 0 {
      assert waiting[..0] == [] && waiting[0..] == waiting;
    } else if key !in s.db {
      ServeAllGone(s, key, otype, waiting[..j], rest);
      ServeAllGone(s, key, otype, waiting[j..], rest);
    } else {
      var s1 := AfterFirst(s, key, otype, waiting, rest);
      AfterFirstPart(s, key, otype, waiting, rest, j);
      assert waiting[..j][1..] == waiting[1..][..j - 1] && waiting[1..][j - 1..] == waiting[j..];
      ServeAllSplits(s1, key, otype, waiting[1..], rest, j - 1);
    }
  }

  // The state in which the second client is looked at.
  ghost function AfterFirst(
      s: State, key: Key, otype: ObjectType, waiting: seq<ClientId>, rest: seq<Key>): (s1: State)
    requires Serving(s, key, otype, waiting, rest) && waiting != [] && key in s.db
    ensures Serving(s1, key, otype, waiting[1..], rest)
    ensures ServeAll(s, key, otype, waiting, rest) == ServeAll(s1, key, otype, waiting[1..], rest)
  {
    PartServing(s, key, otype, waiting, rest, waiting[1..], 1, |waiting|);
    if Matches(s, waiting[0], otype) then
      ServeOneKeeps(s, key, otype, waiting, rest);
      ServeOne(s, key, waiting[0])
    else s
  }

  lemma AfterFirstPart(s: State, key: Key, otype: ObjectType, waiting: seq<ClientId>, rest: seq<Key>, j: nat)
    requires Serving(s, key, otype, waiting, rest) && 0 < j <= |waiting| && key in s.db
    ensures Serving(s, key, otype, waiting[..j], rest)
    ensures AfterFirst(s, key, otype, waiting[..j], rest) == AfterFirst(s, key, otype, waiting, rest)
  {
    PartServing(s, key, otype, waiting, rest, waiting[..j], 0, j);
  }

  /** In the state at, which those before it have left, client j of the list is served, and then the rest. */
  ghost predicate Turn(
      s: State, key: Key, otype: ObjectType, waiting: seq<ClientId>, rest: seq<Key>, j: nat, at: State)
    requires Serving(s, key, otype, waiting, rest) && j < |waiting|
  {
    && Serving(s, key, otype, waiting[..j], rest) && at == ServeAll(s, key, otype, waiting[..j], rest)
    && Servable(at, key, waiting[j]) && CanUnblock(Give(at, key, waiting[j]), waiting[j])
    && at.clients[waiting[j]] == s.clients[waiting[j]]
    && var after := ServeOne(at, key, waiting[j]);
       && Serving(after, key, otype, waiting[j + 1..], rest)
       && ServeAll(s, key, otype, waiting, rest) == ServeAll(after, key, otype, waiting[j + 1..], rest)
  }

  lemma TurnComes(s: State, key: Key, otype: ObjectType, waiting: seq<ClientId>, rest: seq<Key>, j: nat)
    requires Serving(s, key, otype, waiting, rest) && j < |waiting| && Matches(s, waiting[j], otype)
    requires Serving(s, key, otype, waiting[..j], rest) && key in ServeAll(s, key, otype, waiting[..j], rest).db
    ensures Turn(s, key, otype, waiting, rest, j, ServeAll(s, key, otype, waiting[..j], rest))
  {
    var at := ServeAll(s, key, otype, waiting[..j], rest);
    ServeAllSplits(s, key, otype, waiting, rest, j);
    assert waiting[j] !in waiting[..j];
    ServeAllOthers(s, key, otype, waiting[..j], rest, waiting[j]);
    assert waiting[j..][0] == waiting[j] && waiting[j..][1..] == waiting[j + 1..];
    ServeOneKeeps(at, key, otype, waiting[j..], rest);
  }

  // Whoever is served is served in turn.
  lemma ServedAtTurn(s: State, key: Key, otype: ObjectType, waiting: seq<ClientId>, rest: seq<Key>, j: nat)
    requires Serving(s, key, otype, waiting, rest) && j < |waiting|
    requires Served(s, ServeAll(s, key, otype, waiting, rest), waiting[j])
    ensures Serving(s, key, otype, waiting[..j], rest)
    ensures Turn(s, key, otype, waiting, rest, j, ServeAll(s, key, otype, waiting[..j], rest))
  {
    ServeAllSplits(s, key, otype, waiting, rest, j);
    var at := ServeAll(s, key, otype, waiting[..j], rest);
    assert waiting[j] !in waiting[..j];
    ServeAllOthers(s, key, otype, waiting[..j], rest, waiting[j]);
    FirstServed(at, key, otype, waiting[j..], rest);
    TurnComes(s, key, otype, waiting, rest, j);
  }

  // The first client is served only if the key is there and the client of the right type.
  lemma FirstServed(s: State, key: Key, otype: ObjectType, waiting: seq<ClientId>, rest: seq<Key>)
    requires Serving(s, key, otype, waiting, rest) && waiting != []
    requires Served(s, ServeAll(s, key, otype, waiting, rest), waiting[0])
    ensures key in s.db && Matches(s, waiting[0], otype)
  {
    PartServing(s, key, otype, waiting, rest, waiting[1..], 1, |waiting|);
    assert waiting[0] !in waiting[1..];
    ServeAllOthers(s, key, otype, waiting[1..], rest, waiting[0]);
  }

  /** First come, first served: before a client is served, every client of the type that stands before it in
      the list has had its turn, in a state first whose elements it was given from, and is unblocked in the
      state next in which the later one is looked at, still blocked. */
  lemma ServedInOrder(s: State, key: Key, otype: ObjectType, waiting: seq<ClientId>, rest: seq<Key>, i: nat, j: nat)
      returns (first: State, next: State)
    requires Serving(s, key, otype, waiting, rest) && i < j < |waiting|
    requires Matches(s, waiting[i], otype) && Served(s, ServeAll(s, key, otype, waiting, rest), waiting[j])
    ensures Turn(s, key, otype, waiting, rest, i, first) && Turn(s, key, otype, waiting, rest, j, next)
    ensures Serving(ServeOne(first, key, waiting[i]), key, otype, waiting[i + 1..j], rest)
    ensures next == ServeAll(ServeOne(first, key, waiting[i]), key, otype, waiting[i + 1..j], rest)
    ensures Served(s, next, waiting[i])
  {
    ServedAtTurn(s, key, otype, waiting, rest, j);
    var part := waiting[..j];
    next := ServeAll(s, key, otype, part, rest);
    assert part[..i] == waiting[..i] && part[i] == waiting[i] && part[i + 1..] == waiting[i + 1..j];
    ServeAllSplits(s, key, otype, part, rest, i);
    first := ServeAll(s, key, otype, waiting[..i], rest);
    TurnComes(s, key, otype, waiting, rest, i);
    TurnComes(s, key, otype, part, rest, i);
    var after := ServeOne(first, key, waiting[i]);
    ServeOneFrees(first, key, otype, part[i..], rest);
    assert waiting[i] !in waiting[i + 1..j];
    ServeAllOthers(after, key, otype, waiting[i + 1..j], rest, waiting[i]);
  }

  lemma ServeOneFrees(s: State, key: Key, otype: ObjectType, waiting: seq<ClientId>, rest: seq<Key>)
    requires Serving(s, key, otype, waiting, rest)
    requires waiting != [] && key in s.db && Matches(s, waiting[0], otype)
    ensures Servable(s, key, waiting[0]) && CanUnblock(Give(s, key, waiting[0]), waiting[0])
    ensures Served(s, ServeOne(s, key, waiting[0]), waiting[0])
  {
    ServeOneKeeps(s, key, otype, waiting, rest);
  }

  /** One turn of the inner loop of handleClientsBlockedOnKeys: the key leaves the ready table, then
      its clients are served if it holds something to pop. */
  ghost function HandleKey(s: State, key: Key, rest: seq<Key>): State
    requires Consistent(s) && NoEmptyValues(s.db) && ReadyWith(s, [key] + rest)
  {
    var s1 := s.(readySet := s.readySet - {key});
    KeyTaken(s, key, rest);
    if key !in s1.db || !Poppable(s1.db[key].otype) then s1
    else if s1.byType[BlockedFor(s1.db[key].otype)] == 0 then s1
    else if key !in s1.blocking then s1
    else ServeAll(s1, key, s1.db[key].otype, s1.blocking[key], rest)
  }

  lemma KeyTaken(s: State, key: Key, rest: seq<Key>)
    requires Consistent(s) && NoEmptyValues(s.db) && ReadyWith(s, [key] + rest)
    ensures var s1 := s.(readySet := s.readySet - {key});
      && Consistent(s1) && ReadyWith(s1, rest) && Counts(s1)
      && (key in s1.db && Poppable(s1.db[key].otype) && key in s1.blocking
          ==> Serving(s1, key, s1.db[key].otype, s1.blocking[key], rest))
  {
    var s1 := s.(readySet := s.readySet - {key});
    ReadyPopped(s.readySet, key, rest, s.readyQueue);
    assert [key] + rest + s.readyQueue == [key] + (rest + s.readyQueue);
  }

  lemma ReadyPopped(ready: set<Key>, key: Key, rest: seq<Key>, queue: seq<Key>)
    requires NoDuplicates([key] + rest + queue) && forall k :: k in ready <==> k in [key] + rest + queue
    ensures NoDuplicates(rest + queue) && forall k :: k in ready - {key} <==> k in rest + queue
  {
    var before, after := [key] + rest + queue, rest + queue;
    assert before[0] == key && forall i :: 0 <= i < |after| ==> after[i] == before[i + 1];
    forall k ensures k in ready - {key} <==> k in after {
      if k in after {
        var i :| 0 <= i < |after| && after[i] == k;
        assert before[i + 1] == k;
      }
    }
  }

  lemma HandleKeyKeeps(s: State, key: Key, rest: seq<Key>)
    requires Consistent(s) && NoEmptyValues(s.db) && ReadyWith(s, [key] + rest)
    ensures var s' := HandleKey(s, key, rest);
      && Consistent(s') && NoEmptyValues(s'.db) && ReadyWith(s', rest)
      && s'.blockedClients >= 0
      && (s'.blockedClients < s.blockedClients
          || (s'.blockedClients == s.blockedClients && s'.readyQueue == s.readyQueue))
  {
    KeyTaken(s, key, rest);
    var s1 := s.(readySet := s.readySet - {key});
    if key in s1.db && Poppable(s1.db[key].otype) && key in s1.blocking {
      ServeAllKeeps(s1, key, s1.db[key].otype, s1.blocking[key], rest);
    }
  }

  // A counter of zero means that nobody of this type is blocked.
  lemma NobodyOfType(s: State, otype: ObjectType)
    requires Consistent(s) && Poppable(otype) && BlockedFor(otype) in s.byType && s.byType[BlockedFor(otype)] == 0
    ensures forall c :: c in s.clients ==> s.clients[c].btype != BlockedFor(otype)
  {
    assert OfType(s.clients, BlockedFor(otype)) == {};
    assert forall c :: c in s.clients ==> c !in OfType(s.clients, BlockedFor(otype));
  }

  lemma NothingToServe(s: State, key: Key, otype: ObjectType, lost: set<Key>)
    requires Consistent(s) && Poppable(otype) && BlockedFor(otype) in s.byType
    requires key in s.db && s.db[key].otype == otype && NoLost(s, lost + {key})
    requires s.byType[BlockedFor(otype)] == 0 || key !in s.blocking
    ensures NoLost(s, lost)
  {
    if s.byType[BlockedFor(otype)] == 0 {
      NobodyOfType(s, otype);
    }
    NobodyLeft(s.clients, s.db, s.readySet, key, otype, lost);
  }

  /** Handling a key loses nothing: whoever waited for its value was served, or the value is gone. */
  lemma HandleKeyLosesNothing(s: State, key: Key, rest: seq<Key>, lost: set<Key>)
    requires Consistent(s) && NoEmptyValues(s.db) && ReadyWith(s, [key] + rest) && NoLost(s, lost)
    ensures NoLost(HandleKey(s, key, rest), lost)
  {
    KeyTaken(s, key, rest);
    var s1 := s.(readySet := s.readySet - {key});
    assert NoLost(s1, lost + {key});
    if key in s1.db && Poppable(s1.db[key].otype) {
      var otype := s1.db[key].otype;
      if s1.byType[BlockedFor(otype)] == 0 || key !in s1.blocking {
        NothingToServe(s1, key, otype, lost);
      } else {
        ServeAllLosesNothing(s1, key, otype, s1.blocking[key], rest, lost);
      }
    } else {
      assert NoLost(s1, lost);
    }
  }

  // ----- the two loops

  /** The inner loop, over the list that was taken from server.ready_keys. */
  ghost function Drain(s: State, taken: seq<Key>): State
    requires Consistent(s) && NoEmptyValues(s.db) && ReadyWith(s, taken)
    decreases |taken|
  {
    if taken == [] then s
    else
      assert [taken[0]] + taken[1..] == taken;
      HandleKeyKeeps(s, taken[0], taken[1..]);
      Drain(HandleKey(s, taken[0], taken[1..]), taken[1..])
  }

  lemma {:induction false} DrainKeeps(s: State, taken: seq<Key>, lost: set<Key>)
    requires Consistent(s) && NoEmptyValues(s.db) && ReadyWith(s, taken)
    ensures var s' := Drain(s, taken);
      && Valid(s')
      && (s'.blockedClients < s.blockedClients
          || (s'.blockedClients == s.blockedClients && s'.readyQueue == s.readyQueue))
    ensures NoLost(s, lost) ==> NoLost(Drain(s, taken), lost)
    decreases |taken|
  {
    if taken != [] {
      assert [taken[0]] + taken[1..] == taken;
      HandleKeyKeeps(s, taken[0], taken[1..]);
      if NoLost(s, lost) {
        HandleKeyLosesNothing(s, taken[0], taken[1..], lost);
      }
      DrainKeeps(HandleKey(s, taken[0], taken[1..]), taken[1..], lost);
    }
  }

  lemma TakeQueue(s: State)
    requires Valid(s)
    ensures var s1 := s.(readyQueue := []);
      Consistent(s1) && NoEmptyValues(s1.db) && ReadyWith(s1, s.readyQueue)
    ensures s.blockedClients >= 0
  {
    assert [] + s.readyQueue == s.readyQueue + [];
  }

  /** handleClientsBlockedOnKeys. Each round either serves a client, so that fewer are blocked, or
      signals no new key: that is why the loop ends. */
  ghost function Handle(s: State): State
    requires Valid(s)
    decreases s.blockedClients, |s.readyQueue|
  {
    if s.readyQueue == [] then s
    else
      TakeQueue(s);
      var s1 := s.(readyQueue := []);
      DrainKeeps(s1, s.readyQueue, {});
      Handle(Drain(s1, s.readyQueue))
  }

  /** When handleClientsBlockedOnKeys returns, the server is consistent, no key is left queued, and no
      client waits for a list or sorted set that a key of its holds, unless its wakeup was lost before. */
  lemma {:induction false} HandleServesEverybody(s: State, lost: set<Key>)
    requires Valid(s) && NoLost(s, lost)
    ensures Valid(Handle(s)) && Handle(s).readyQueue == [] && Handle(s).readySet == {}
    ensures NoLostWakeup(Handle(s).clients, Handle(s).db, lost)
    decreases s.blockedClients, |s.readyQueue|
  {
    if s.readyQueue == [] {
      assert s.readySet == {} && {} + lost == lost;
    } else {
      TakeQueue(s);
      var s1 := s.(readyQueue := []);
      DrainKeeps(s1, s.readyQueue, lost);
      HandleServesEverybody(Drain(s1, s.readyQueue), lost);
    }
  }
}
