/** ACLGetCommandID: how command ids are handed out. */
module AclCommandIds {
  import opened AclModel

  /** Ids are distinct, never the reserved one, and dense below it: the n-th name gets id n. */
  ghost predicate Numbered(ids: map<string, nat>, nextId: nat) {
    && nextId == |ids| + (if |ids| < FUTURE_BIT then 0 else 1)
    && (forall n :: n in ids ==> ids[n] < nextId && ids[n] != FUTURE_BIT)
    && (forall m, n :: m in ids && n in ids && ids[m] == ids[n] ==> m == n)
  }

  lemma OneMoreName(ids: map<string, nat>, nextId: nat, key: string)
    requires Numbered(ids, nextId) && key !in ids
    ensures Numbered(ids[key := nextId], nextId + (if nextId + 1 == FUTURE_BIT then 2 else 1))
    ensures |ids[key := nextId]| <= FUTURE_BIT ==> nextId < FUTURE_BIT
  {
    assert |ids[key := nextId]| == |ids| + 1;
  }

  class CommandIds {
    var ids: map<string, nat>
    var nextId: nat

    ghost predicate Valid()
      reads this
    {
      Numbered(ids, nextId)
    }

    constructor ()
      ensures Valid() && ids == map[]
    {
      ids := map[];
      nextId := 0;
    }

    /** A name keeps the id it was first given, whatever its case; other names are not affected. */
    method GetCommandID(name: string) returns (id: nat)
      requires Valid()
      modifies this
      ensures Valid()
      ensures ids.Keys == old(ids).Keys + {Lower(name)} && id == ids[Lower(name)]
      ensures forall n :: n in old(ids) ==> n in ids && ids[n] == old(ids)[n]
      ensures |ids| <= FUTURE_BIT ==> id < FUTURE_BIT
    {
      var key := Lower(name);
      if key in ids {
        return ids[key];
      }
      OneMoreName(ids, nextId, key);
      ids := ids[key := nextId];
      id := nextId;
      nextId := nextId + 1;
      if nextId == BITS_COUNT - 1 {
        nextId := nextId + 1;
      }
    }
  }

  // ----- the command table

  /** The names that the commands of a table get their ids by. */
  function Keys(cmds: seq<Command>): set<string>
    decreases cmds
  {
    if cmds == [] then {} else {Lower(cmds[0].fullname)} + Keys(cmds[0].subs) + Keys(cmds[1..])
  }

  /** Each command and subcommand has the id of its full name. */
  predicate Assigned(ids: map<string, nat>, cmds: seq<Command>)
    decreases cmds
  {
    cmds != [] ==>
      && Lower(cmds[0].fullname) in ids && cmds[0].id == ids[Lower(cmds[0].fullname)]
      && Assigned(ids, cmds[0].subs) && Assigned(ids, cmds[1..])
  }

  lemma {:induction false} KeyOf(ids: map<string, nat>, cmds: seq<Command>, id: nat) returns (key: string)
    requires Assigned(ids, cmds) && id in Ids(cmds)
    ensures key in Keys(cmds) && key in ids && ids[key] == id
    decreases cmds
  {
    if id == cmds[0].id {
      key := Lower(cmds[0].fullname);
    } else if id in Ids(cmds[0].subs) {
      key := KeyOf(ids, cmds[0].subs, id);
    } else {
      key := KeyOf(ids, cmds[1..], id);
    }
  }

  lemma NoSharedId(ids: map<string, nat>, nextId: nat, a: seq<Command>, b: seq<Command>, id: nat)
    requires Numbered(ids, nextId) && Assigned(ids, a) && Assigned(ids, b) && Keys(a) !! Keys(b)
    ensures id !in Ids(a) || id !in Ids(b)
  {
    if id in Ids(a) && id in Ids(b) {
      var k := KeyOf(ids, a, id);
      var n := KeyOf(ids, b, id);
      assert false;
    }
  }

  lemma NewId(ids: map<string, nat>, nextId: nat, key: string, cmds: seq<Command>)
    requires Numbered(ids, nextId) && Assigned(ids, cmds) && key in ids && key !in Keys(cmds)
    ensures ids[key] !in Ids(cmds)
  {
    if ids[key] in Ids(cmds) {
      var k := KeyOf(ids, cmds, ids[key]);
      assert false;
    }
  }

  /** What comes before the first bar of a key. */
  function Head(key: string): string {
    key[..FirstBar(key)]
  }

  // The key of a command or of one of its subcommands starts with the name of the command.
  lemma TopHead(name: string)
    requires PlainName(name)
    ensures Head(Lower(name)) == Lower(name)
  {
    var k := FirstBar(Lower(name));
    assert k < |name| ==> LowerChar(name[k]) == '|';
  }

  lemma SubKey(parent: string, name: string)
    requires PlainName(parent)
    ensures var key := Lower(parent + "|" + name);
      && Head(key) == Lower(parent) && |key| == |parent| + 1 + |name| && key[|parent| + 1..] == Lower(name)
  {
    var full := parent + "|" + name;
    var key := Lower(full);
    var k := FirstBar(key);
    assert full[|parent|] == '|' && key[|parent|] == '|';
    assert k < |parent| ==> LowerChar(parent[k]) == '|';
    assert key[..|parent|] == Lower(parent);
    assert full[|parent| + 1..] == name && key[|parent| + 1..] == Lower(name);
  }

  lemma {:induction false} SubKeys(subs: seq<Command>, parent: string, key: string) returns (j: nat)
    requires PlainName(parent) && (forall i :: 0 <= i < |subs| ==> ValidSub(subs[i], parent)) && key in Keys(subs)
    ensures j < |subs| && key == Lower(parent + "|" + subs[j].name)
    ensures Head(key) == Lower(parent) && key != Lower(parent)
    decreases |subs|
  {
    assert ValidSub(subs[0], parent) && Keys(subs[0].subs) == {};
    if key == Lower(subs[0].fullname) {
      j := 0;
      SubKey(parent, subs[0].name);
    } else {
      var k := SubKeys(subs[1..], parent, key);
      j := k + 1;
    }
  }

  lemma SubKeysApart(subs: seq<Command>, parent: string)
    requires PlainName(parent) && subs != [] && DistinctNames(subs)
    requires forall i :: 0 <= i < |subs| ==> ValidSub(subs[i], parent)
    ensures Lower(subs[0].fullname) !in Keys(subs[1..])
  {
    var key := Lower(subs[0].fullname);
    assert ValidSub(subs[0], parent);
    if key in Keys(subs[1..]) {
      var j := SubKeys(subs[1..], parent, key);
      SubKey(parent, subs[0].name);
      SubKey(parent, subs[j + 1].name);
      assert SameName(subs[0].name, subs[j + 1].name);
    }
  }

  lemma {:induction false} SubIds(ids: map<string, nat>, nextId: nat, subs: seq<Command>, parent: string)
    requires Numbered(ids, nextId) && Assigned(ids, subs) && PlainName(parent) && DistinctNames(subs)
    requires forall i :: 0 <= i < |subs| ==> ValidSub(subs[i], parent)
    ensures DistinctIds(subs)
    decreases |subs|
  {
    if subs != [] {
      assert ValidSub(subs[0], parent) && Ids(subs[0].subs) == {};
      SubIds(ids, nextId, subs[1..], parent);
      SubKeysApart(subs, parent);
      NewId(ids, nextId, Lower(subs[0].fullname), subs[1..]);
    }
  }

  lemma {:induction false} HeadOf(cmds: seq<Command>, key: string) returns (i: nat)
    requires (forall k :: 0 <= k < |cmds| ==> ValidTop(cmds[k])) && key in Keys(cmds)
    ensures i < |cmds| && Head(key) == Lower(cmds[i].name)
    decreases |cmds|
  {
    assert ValidTop(cmds[0]);
    if key == Lower(cmds[0].fullname) {
      i := 0;
      TopHead(cmds[0].name);
    } else if key in Keys(cmds[0].subs) {
      i := 0;
      var j := SubKeys(cmds[0].subs, cmds[0].name, key);
    } else {
      var k := HeadOf(cmds[1..], key);
      i := k + 1;
    }
  }

  // Nothing in the rest of the table starts with the name of the first command.
  lemma OtherHeads(cmds: seq<Command>, key: string)
    requires cmds != [] && DistinctNames(cmds) && (forall k :: 0 <= k < |cmds| ==> ValidTop(cmds[k]))
    requires key in Keys(cmds[1..])
    ensures Head(key) != Lower(cmds[0].name)
  {
    var i := HeadOf(cmds[1..], key);
    assert !SameName(cmds[0].name, cmds[i + 1].name);
  }

  lemma FirstApart(cmds: seq<Command>)
    requires cmds != [] && DistinctNames(cmds) && (forall k :: 0 <= k < |cmds| ==> ValidTop(cmds[k]))
    ensures Lower(cmds[0].fullname) !in Keys(cmds[0].subs) && Lower(cmds[0].fullname) !in Keys(cmds[1..])
    ensures Keys(cmds[0].subs) !! Keys(cmds[1..])
  {
    var c := cmds[0];
    assert ValidTop(c);
    TopHead(c.name);
    forall key | key in Keys(c.subs)
      ensures Head(key) == Lower(c.name) && key != Lower(c.fullname)
    {
      var j := SubKeys(c.subs, c.name, key);
    }
    forall key | key in Keys(cmds[1..])
      ensures Head(key) != Lower(c.name)
    {
      OtherHeads(cmds, key);
    }
  }

  lemma {:induction false} TopIds(ids: map<string, nat>, nextId: nat, cmds: seq<Command>)
    requires Numbered(ids, nextId) && Assigned(ids, cmds) && DistinctNames(cmds)
    requires forall k :: 0 <= k < |cmds| ==> ValidTop(cmds[k])
    ensures DistinctIds(cmds)
    decreases |cmds|
  {
    if cmds != [] {
      var c := cmds[0];
      assert ValidTop(c);
      FirstApart(cmds);
      SubIds(ids, nextId, c.subs, c.name);
      TopIds(ids, nextId, cmds[1..]);
      NewId(ids, nextId, Lower(c.fullname), c.subs);
      NewId(ids, nextId, Lower(c.fullname), cmds[1..]);
      forall id: nat
        ensures id !in Ids(c.subs) || id !in Ids(cmds[1..])
      {
        NoSharedId(ids, nextId, c.subs, cmds[1..], id);
      }
    }
  }

  /** A command table whose names are distinct, each command with the id that its full name was given, has distinct
      ids below the reserved one as long as no more names than that were given ids. */
  lemma IdsFit(ids: map<string, nat>, nextId: nat, cmds: seq<Command>)
    requires Numbered(ids, nextId) && |ids| <= FUTURE_BIT && Assigned(ids, cmds) && DistinctNames(cmds)
    requires forall k :: 0 <= k < |cmds| ==> ValidTop(cmds[k])
    ensures DistinctIds(cmds) && forall id :: id in Ids(cmds) ==> id < FUTURE_BIT
  {
    TopIds(ids, nextId, cmds);
    forall id | id in Ids(cmds)
      ensures id < FUTURE_BIT
    {
      var key := KeyOf(ids, cmds, id);
    }
  }
}
