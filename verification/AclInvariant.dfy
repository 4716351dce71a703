/** What every ACL rule keeps, over any table and any history of rules. */
module AclInvariant {
  import opened Options
  import opened AclModel

  /** s' differs from s at most in what concerns the given ids, and never gains ALLCOMMANDS. */
  ghost predicate Touches(s: Permissions, s': Permissions, ids: set<nat>) {
    && (forall id: nat :: id !in ids ==> (id in s.bits <==> id in s'.bits))
    && (forall id: nat :: id !in ids ==> (id in s.firstArgs <==> id in s'.firstArgs))
    && (forall id: nat :: id in s'.firstArgs ==> id in s.firstArgs && s'.firstArgs[id] == s.firstArgs[id])
    && (s'.allCommands ==> s.allCommands)
  }

  /** ALLCOMMANDS is only a shortcut for every bit being set. */
  predicate Sound(s: Permissions) {
    s.bits <= ALL_BITS && (s.allCommands ==> s.bits == ALL_BITS)
  }

  ghost predicate FirstArgsValid(t: Table, s: Permissions) {
    forall id :: id in s.firstArgs ==>
      && (exists c :: c in t.commands && c.id == id && !c.isContainer)
      && ValidArgs(s.firstArgs[id])
  }

  predicate ValidArgs(args: seq<string>) {
    && args != []
    && (forall i :: 0 <= i < |args| ==> args[i] != "" && '|' !in args[i])
    && (forall i, j :: 0 <= i < j < |args| ==> !SameName(args[i], args[j]))
  }

  ghost predicate Invariant(t: Table, s: Permissions) {
    && Sound(s)
    && (forall id: nat :: id < BITS_COUNT && id !in Ids(t.commands) ==> (id in s.bits <==> FUTURE_BIT in s.bits))
    && FirstArgsValid(t, s)
  }

  // ----- ids

  lemma {:induction false} MemberIds(cmds: seq<Command>, c: Command)
    requires c in cmds
    ensures c.id in Ids(cmds) && Ids(c.subs) <= Ids(cmds)
    decreases |cmds|
  {
    if c != cmds[0] {
      assert c in cmds[1..];
      MemberIds(cmds[1..], c);
    }
  }

  // The ids of one command with its subcommands.
  function Own(c: Command): set<nat> {
    {c.id} + Ids(c.subs)
  }

  // Ids of a list of commands, split at a place.
  lemma {:induction false} IdsSplit(cmds: seq<Command>, i: nat)
    requires i <= |cmds|
    ensures Ids(cmds) == Ids(cmds[..i]) + Ids(cmds[i..])
    ensures DistinctIds(cmds) ==> Ids(cmds[..i]) !! Ids(cmds[i..]) && DistinctIds(cmds[i..])
    decreases i
  {
    if i == 0 {
      assert cmds[..0] == [] && cmds[0..] == cmds;
    } else {
      assert cmds[1..][..i - 1] == cmds[..i][1..];
      assert cmds[1..][i - 1..] == cmds[i..];
      IdsSplit(cmds[1..], i - 1);
    }
  }

  lemma IdsStep(cmds: seq<Command>, i: nat)
    requires i < |cmds| && DistinctIds(cmds)
    ensures Ids(cmds[..i + 1]) == Ids(cmds[..i]) + Own(cmds[i])
    ensures Ids(cmds[..i]) !! Own(cmds[i])
    ensures Own(cmds[i]) <= Ids(cmds)
    ensures cmds[i].id !in Ids(cmds[i].subs) && DistinctIds(cmds[i].subs)
  {
    IdsSplit(cmds, i);
    IdsSplit(cmds[..i + 1], i);
    assert cmds[..i + 1][..i] == cmds[..i] && cmds[..i + 1][i..] == [cmds[i]];
    assert Ids([cmds[i]]) == Own(cmds[i]);
    assert cmds[i..][0] == cmds[i];
  }

  lemma OwnUnique(cmds: seq<Command>, i: nat, j: nat, id: nat)
    requires i < |cmds| && j < |cmds| && DistinctIds(cmds) && id in Own(cmds[i]) && id in Own(cmds[j])
    ensures i == j
  {
    if i < j {
      IdsStep(cmds, j);
      MemberIds(cmds[..j], cmds[i]);
    } else if j < i {
      IdsStep(cmds, i);
      MemberIds(cmds[..i], cmds[j]);
    }
  }

  lemma TopIdUnique(cmds: seq<Command>, i: nat, j: nat)
    requires i < |cmds| && j < |cmds| && DistinctIds(cmds) && cmds[i].id in Own(cmds[j])
    ensures i == j
  {
    OwnUnique(cmds, i, j, cmds[i].id);
  }

  // Entries with first arguments belong to commands that are no containers.
  lemma ArgsOwner(t: Table, s: Permissions, id: nat) returns (k: nat)
    requires Invariant(t, s) && id in s.firstArgs
    ensures k < |t.commands| && t.commands[k].id == id && !t.commands[k].isContainer && ValidArgs(s.firstArgs[id])
  {
    var c :| c in t.commands && c.id == id && !c.isContainer;
    k :| k < |t.commands| && t.commands[k] == c;
  }

  lemma SubIsNotTop(t: Table, k: nat, a: nat, i: nat)
    requires ValidTable(t) && k < |t.commands| && !t.commands[k].isContainer
    requires a < |t.commands| && i < |t.commands[a].subs|
    ensures t.commands[k].id != t.commands[a].subs[i].id
  {
    MemberIds(t.commands[a].subs, t.commands[a].subs[i]);
    if t.commands[k].id == t.commands[a].subs[i].id {
      TopIdUnique(t.commands, k, a);
      IdsStep(t.commands, k);
    }
  }

  // ----- effects

  lemma {:induction false} SetBitsEffect(s: Permissions, cmds: seq<Command>, value: bool)
    requires Sound(s)
    ensures Sound(SetBits(s, cmds, value))
    ensures Touches(s, SetBits(s, cmds, value), Ids(cmds))
    ensures SetBits(s, cmds, value).firstArgs == s.firstArgs
    decreases |cmds|
  {
    if cmds != [] {
      SetBitsEffect(SetBit(s, cmds[0].id, value), cmds[1..], value);
    }
  }

  lemma ChangePermEffect(s: Permissions, c: Command, allow: bool)
    requires Sound(s)
    ensures Sound(ChangePerm(s, c, allow))
    ensures Touches(s, ChangePerm(s, c, allow), Own(c))
  {
    SetBitsEffect(ResetFirstArgs(SetBit(s, c.id, allow), c.id), c.subs, allow);
  }

  lemma {:induction false} ChangeCategoryEffect(s: Permissions, cmds: seq<Command>, category: nat, allow: bool)
    requires Sound(s)
    ensures Sound(ChangeCategory(s, cmds, category, allow))
    ensures Touches(s, ChangeCategory(s, cmds, category, allow), Ids(cmds))
    decreases cmds
  {
    if cmds != [] {
      var c := cmds[0];
      if c.isModule {
        ChangeCategoryEffect(s, cmds[1..], category, allow);
      } else {
        ChangePermEffect(s, c, allow);
        var s1 := if category in c.categories then ChangePerm(s, c, allow) else s;
        ChangeCategoryEffect(s1, c.subs, category, allow);
        ChangeCategoryEffect(ChangeCategory(s1, c.subs, category, allow), cmds[1..], category, allow);
      }
    }
  }

  // ----- lookup

  // Where a looked-up command sits in the table.
  lemma LookupPlace(t: Table, name: string)
    requires ValidTable(t) && Lookup(t, name).Some?
    ensures var c := Lookup(t, name).value;
      && c.id in Ids(t.commands) && Ids(c.subs) <= Ids(t.commands)
      && (!c.hasParent ==> c in t.commands)
  {
    var c := Lookup(t, name).value;
    if c in t.commands {
      MemberIds(t.commands, c);
    } else {
      var base :| base in t.commands && c in base.subs;
      MemberIds(t.commands, base);
      MemberIds(base.subs, c);
      var i :| 0 <= i < |t.commands| && t.commands[i] == base;
      assert ValidTop(base);
    }
  }

  lemma AddFirstArgKeeps(t: Table, s: Permissions, c: Command, arg: string)
    requires Invariant(t, s) && c in t.commands && !c.isContainer && arg != "" && '|' !in arg
    ensures Invariant(t, AddFirstArg(s, c.id, arg))
  {
  }

  lemma TouchedKeeps(t: Table, s: Permissions, s': Permissions, ids: set<nat>)
    requires Invariant(t, s) && Sound(s') && Touches(s, s', ids)
    requires ids <= Ids(t.commands) && FUTURE_BIT !in Ids(t.commands)
    ensures Invariant(t, s')
  {
  }

  // What can be said of a rule just because it was accepted.
  ghost predicate ValidRule(t: Table, rule: Rule) {
    match rule
    case OfCommand(c, _) => Own(c) <= Ids(t.commands)
    case OfFirstArg(id, arg) =>
      arg != "" && '|' !in arg && exists c :: c in t.commands && c.id == id && !c.isContainer
    case _ => true
  }

  lemma ParsedRuleValid(t: Table, op: string)
    requires ValidTable(t) && Parse(t, op).Ok?
    ensures ValidRule(t, Parse(t, op).value)
  {
    var rule := Parse(t, op).value;
    if rule.OfCommand? {
      LookupPlace(t, op[1..]);
    } else if rule.OfFirstArg? {
      var name := op[1..];
      LookupPlace(t, name[..LastBar(name)]);
    }
  }

  /** Every rule that is accepted keeps the invariant. */
  lemma RuleKeeps(t: Table, s: Permissions, rule: Rule)
    requires ValidTable(t) && Invariant(t, s) && ValidRule(t, rule)
    ensures Invariant(t, Apply(t, s, rule))
  {
    match rule
    case Everything =>
    case Nothing =>
    case OfCategory(k, allow) =>
      ChangeCategoryEffect(s, t.commands, k, allow);
      TouchedKeeps(t, s, Apply(t, s, rule), Ids(t.commands));
    case OfCommand(c, allow) =>
      ChangePermEffect(s, c, allow);
      TouchedKeeps(t, s, Apply(t, s, rule), Own(c));
    case OfFirstArg(id, arg) =>
      var c :| c in t.commands && c.id == id && !c.isContainer;
      AddFirstArgKeeps(t, s, c, arg);
  }

  /** Every selector reachable from a fresh one by rules satisfies the invariant. */
  lemma {:induction false} ReachableKeeps(t: Table, ops: seq<string>)
    requires ValidTable(t)
    ensures Replay(t, FRESH, ops).Ok? ==> Invariant(t, Replay(t, FRESH, ops).value)
    decreases |ops|
  {
    if ops != [] && Replay(t, FRESH, ops).Ok? {
      var init, last := ops[..|ops| - 1], ops[|ops| - 1];
      ReachableKeeps(t, init);
      ParsedRuleValid(t, last);
      RuleKeeps(t, Replay(t, FRESH, init).value, Parse(t, last).value);
    }
  }

  // ----- the rules that a description is made of

  lemma {:induction false} FindByName(cmds: seq<Command>, i: nat)
    requires i < |cmds| && DistinctNames(cmds)
    ensures Find(cmds, cmds[i].name) == Some(cmds[i])
  {
    if i > 0 {
      FindByName(cmds[1..], i - 1);
    }
  }

  lemma LookupTop(t: Table, i: nat)
    requires ValidTable(t) && i < |t.commands|
    ensures Lookup(t, t.commands[i].fullname) == Some(t.commands[i])
  {
    assert ValidTop(t.commands[i]);
    FindByName(t.commands, i);
  }

  lemma LookupSub(t: Table, i: nat, j: nat)
    requires ValidTable(t) && i < |t.commands| && j < |t.commands[i].subs|
    ensures Lookup(t, t.commands[i].subs[j].fullname) == Some(t.commands[i].subs[j])
  {
    var c := t.commands[i];
    assert ValidTop(c);
    var sub := c.subs[j];
    assert ValidSub(sub, c.name);
    var n := sub.fullname;
    var k := FirstBar(n);
    assert n[|c.name|] == '|';
    assert forall l :: 0 <= l < |c.name| ==> n[l] == c.name[l];
    assert k == |c.name|;
    assert forall l :: k < l < |n| ==> n[l] == sub.name[l - k - 1];
    assert n[..k] == c.name && n[k + 1..] == sub.name;
    FindByName(t.commands, i);
    FindByName(c.subs, j);
  }

  function Sign(allow: bool): string {
    if allow then "+" else "-"
  }

  // A rule about one command is none of the four words for all or no commands.
  lemma PlainRule(op: string)
    requires |op| >= 2 && (op[0] == '+' || op[0] == '-') && op[1] != '@'
    ensures !SameName(op, "allcommands") && !SameName(op, "+@all")
    ensures !SameName(op, "nocommands") && !SameName(op, "-@all")
  {
    assert Lower(op)[0] == op[0] && Lower(op)[1] != '@';
    assert Lower("allcommands")[0] == 'a' && Lower("nocommands")[0] == 'n';
    assert Lower("+@all")[1] == '@' && Lower("-@all")[1] == '@';
  }

  /** +name and -name, for a command of the table, mean exactly that command. */
  lemma TopRule(t: Table, i: nat, allow: bool)
    requires ValidTable(t) && i < |t.commands|
    ensures Parse(t, Sign(allow) + t.commands[i].fullname) == Ok(OfCommand(t.commands[i], allow))
  {
    var c := t.commands[i];
    assert ValidTop(c);
    var op := Sign(allow) + c.fullname;
    assert op[1..] == c.fullname;
    PlainRule(op);
    LookupTop(t, i);
    assert LastBar(c.fullname) == -1;
  }

  /** The same for +name|sub and -name|sub. */
  lemma SubRule(t: Table, i: nat, j: nat, allow: bool)
    requires ValidTable(t) && i < |t.commands| && j < |t.commands[i].subs|
    ensures Parse(t, Sign(allow) + t.commands[i].subs[j].fullname) == Ok(OfCommand(t.commands[i].subs[j], allow))
  {
    var c := t.commands[i];
    var sub := c.subs[j];
    assert ValidTop(c) && ValidSub(sub, c.name);
    var op := Sign(allow) + sub.fullname;
    assert op[1..] == sub.fullname;
    assert op[1] == c.name[0];
    PlainRule(op);
    LookupSub(t, i, j);
    BarSplits(c.name, sub.name);
    LookupTop(t, i);
  }

  // name|arg is cut at the bar, wherever one looks for it from.
  lemma BarSplits(name: string, arg: string)
    requires PlainName(name) && '|' !in arg
    ensures var n := name + "|" + arg;
      LastBar(n) == |name| && n[..|name|] == name && n[|name| + 1..] == arg
  {
    var n := name + "|" + arg;
    assert n[|name|] == '|';
    assert forall l :: |name| < l < |n| ==> n[l] == arg[l - |name| - 1];
  }

  /** +command|arg means a first argument. */
  lemma FirstArgRule(t: Table, i: nat, arg: string)
    requires ValidTable(t) && i < |t.commands| && !t.commands[i].isContainer
    requires arg != "" && '|' !in arg
    ensures Parse(t, "+" + t.commands[i].fullname + "|" + arg) == Ok(OfFirstArg(t.commands[i].id, arg))
  {
    var c := t.commands[i];
    assert ValidTop(c);
    var op := "+" + c.fullname + "|" + arg;
    assert op[1..] == c.name + "|" + arg;
    assert op[1] == c.name[0];
    PlainRule(op);
    BarSplits(c.name, arg);
    LookupTop(t, i);
  }

  lemma {:induction false} FindOwnCategory(names: seq<string>, k: nat)
    requires k < |names|
    requires forall i, j :: 0 <= i < j < |names| ==> !SameName(names[i], names[j])
    ensures FindCategory(names, names[k]) == Some(k)
    decreases |names|
  {
    if k == |names| - 1 {
      var r := FindCategory(names[..k], names[k]);
      assert r.None?;
    } else {
      FindOwnCategory(names[..|names| - 1], k);
    }
  }

  lemma LowerRest(s: string, k: nat)
    requires k <= |s|
    ensures Lower(s)[k..] == Lower(s[k..])
  {
  }

  // The name after a sign and '@' is not all.
  lemma NotAllCategories(op: string, all: string)
    requires |op| >= 2 && |all| >= 2 && all[2..] == "all" && !SameName(op[2..], "all")
    ensures !SameName(op, all)
  {
    LowerRest(op, 2);
    LowerRest(all, 2);
  }

  lemma SignedName(op: string, name: string)
    requires op != "" && (op[0] == '+' || op[0] == '-') && name != "" && 'a' <= name[0] <= 'z'
    ensures !SameName(op, name)
  {
    assert Lower(op)[0] == op[0] && Lower(name)[0] == name[0];
  }

  /** +@category and -@category. */
  lemma CategoryRule(t: Table, k: nat, allow: bool)
    requires ValidTable(t) && k < |t.categories|
    ensures Parse(t, Sign(allow) + "@" + t.categories[k]) == Ok(OfCategory(k, allow))
  {
    var name := t.categories[k];
    var op := Sign(allow) + "@" + name;
    assert op[2..] == name && op[1] == '@';
    SignedName(op, "allcommands");
    SignedName(op, "nocommands");
    assert "+@all"[2..] == "all" && "-@all"[2..] == "all";
    NotAllCategories(op, "+@all");
    NotAllCategories(op, "-@all");
    FindOwnCategory(t.categories, k);
  }
}
