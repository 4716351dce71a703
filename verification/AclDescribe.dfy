/** ACLDescribeSelectorCommandRules: the rule list it builds gives back the selector. */
module AclDescribe {
  import Equality
  import opened Options
  import opened AclModel
  import opened AclInvariant
  import opened AclSelector

  // ----- rule texts and what they mean

  ghost predicate Means(t: Table, texts: seq<string>, rules: seq<Rule>) {
    |texts| == |rules| && forall i :: 0 <= i < |texts| ==> Parse(t, texts[i]) == Ok(rules[i])
  }

  lemma {:induction false} MeansReplay(t: Table, texts: seq<string>, rules: seq<Rule>)
    requires Means(t, texts, rules)
    ensures Replay(t, FRESH, texts) == Ok(ApplyAll(t, FRESH, rules))
    decreases |texts|
  {
    if texts != [] {
      MeansReplay(t, texts[..|texts| - 1], rules[..|rules| - 1]);
    }
  }

  lemma ApplyOneMore(t: Table, rules: seq<Rule>, rule: Rule)
    ensures ApplyAll(t, FRESH, rules + [rule]) == Apply(t, ApplyAll(t, FRESH, rules), rule)
  {
    assert (rules + [rule])[..|rules|] == rules;
  }

  lemma PermMeans(t: Table, texts: seq<string>, rules: seq<Rule>, at: Option<nat>, i: nat, allow: bool)
    requires Means(t, texts, rules) && ValidTable(t)
    requires (at.Some? ==> at.value < |t.commands|) && i < |Level(t, at)|
    ensures Means(t, texts + [Sign(allow) + Level(t, at)[i].fullname], rules + [OfCommand(Level(t, at)[i], allow)])
  {
    if at.None? {
      TopRule(t, i, allow);
    } else {
      SubRule(t, at.value, i, allow);
    }
  }

  lemma ArgMeans(t: Table, texts: seq<string>, rules: seq<Rule>, i: nat, arg: string)
    requires Means(t, texts, rules) && ValidTable(t) && i < |t.commands| && !t.commands[i].isContainer
    requires arg != "" && '|' !in arg
    ensures Means(t, texts + ["+" + t.commands[i].fullname + "|" + arg], rules + [OfFirstArg(t.commands[i].id, arg)])
  {
    FirstArgRule(t, i, arg);
  }

  lemma CategoryMeans(t: Table, texts: seq<string>, rules: seq<Rule>, k: nat, allow: bool)
    requires Means(t, texts, rules) && ValidTable(t) && k < |t.categories|
    ensures Means(t, texts + [Sign(allow) + "@" + t.categories[k]], rules + [OfCategory(k, allow)])
  {
    CategoryRule(t, k, allow);
  }

  /** The rules so far give the bits and the flag of the fake selector. */
  ghost predicate Tracks(t: Table, rules: seq<Rule>, fake: Permissions) {
    var r := ApplyAll(t, FRESH, rules);
    r.bits == fake.bits && r.allCommands == fake.allCommands
  }

  ghost function ArgsOf(t: Table, rules: seq<Rule>): map<nat, seq<string>> {
    ApplyAll(t, FRESH, rules).firstArgs
  }

  // ----- one command

  lemma {:induction false} SetBitsCongruent(a: Permissions, b: Permissions, cmds: seq<Command>, value: bool)
    requires a.bits == b.bits && a.allCommands == b.allCommands
    ensures SetBits(a, cmds, value).bits == SetBits(b, cmds, value).bits
    ensures SetBits(a, cmds, value).allCommands == SetBits(b, cmds, value).allCommands
    decreases |cmds|
  {
    if cmds != [] {
      SetBitsCongruent(SetBit(a, cmds[0].id, value), SetBit(b, cmds[0].id, value), cmds[1..], value);
    }
  }

  // What a change of one command does to the bits, whatever the first arguments are.
  lemma ChangePermBits(a: Permissions, b: Permissions, c: Command, allow: bool)
    requires a.bits == b.bits && a.allCommands == b.allCommands && Sound(a)
    requires c.id < BITS_COUNT && c.id !in Ids(c.subs)
    ensures ChangePerm(a, c, allow).bits == ChangePerm(b, c, allow).bits
    ensures ChangePerm(a, c, allow).allCommands == ChangePerm(b, c, allow).allCommands
    ensures ChangePerm(a, c, allow).firstArgs == a.firstArgs - {c.id}
    ensures c.id in ChangePerm(a, c, allow).bits <==> allow
  {
    var a1 := ResetFirstArgs(SetBit(a, c.id, allow), c.id);
    var b1 := ResetFirstArgs(SetBit(b, c.id, allow), c.id);
    SetBitsCongruent(a1, b1, c.subs, allow);
    SetBitsEffect(a1, c.subs, allow);
  }

  // The list a pass is working on: the top-level commands, or the subcommands of one of them.
  ghost function Level(t: Table, at: Option<nat>): seq<Command>
    requires at.Some? ==> at.value < |t.commands|
  {
    if at.None? then t.commands else t.commands[at.value].subs
  }

  lemma LevelIds(t: Table, at: Option<nat>, i: nat)
    requires ValidTable(t)
    requires at.Some? ==> at.value < |t.commands|
    requires i < |Level(t, at)|
    ensures DistinctIds(Level(t, at))
    ensures Level(t, at)[i].id < FUTURE_BIT
    ensures Level(t, at)[i].id !in Ids(Level(t, at)[i].subs)
  {
    if at.Some? {
      IdsStep(t.commands, at.value);
    }
    var cmds := Level(t, at);
    IdsStep(cmds, i);
  }

  // The rules after one more change of a command, and the fake selector after the same change.
  lemma FixTracks(t: Table, rules: seq<Rule>, f: Permissions, c: Command, allow: bool)
    requires Tracks(t, rules, f) && Sound(f) && c.id !in ArgsOf(t, rules)
    requires c.id < BITS_COUNT && c.id !in Ids(c.subs)
    ensures var f' := ChangePerm(f, c, allow);
      && Tracks(t, rules + [OfCommand(c, allow)], f') && Sound(f')
      && ArgsOf(t, rules + [OfCommand(c, allow)]) == ArgsOf(t, rules)
      && (c.id in f'.bits <==> allow)
      && forall id: nat :: id !in Own(c) ==> (id in f'.bits <==> id in f.bits)
  {
    var r := ApplyAll(t, FRESH, rules);
    ApplyOneMore(t, rules, OfCommand(c, allow));
    ChangePermBits(r, f, c, allow);
    ChangePermEffect(f, c, allow);
    assert r.firstArgs - {c.id} == r.firstArgs;
  }

  /** +name or -name, when the fake selector disagrees about a command. */
  method FixCommand(t: Table, fake: Selector, c: Command, texts0: seq<string>, userbit: bool,
                    ghost rules0: seq<Rule>, ghost at: Option<nat>, ghost i: nat)
      returns (texts: seq<string>, ghost rules: seq<Rule>)
    requires fake.Valid() && ValidTable(t) && Sound(fake.Perms())
    requires (at.Some? ==> at.value < |t.commands|) && i < |Level(t, at)| && c == Level(t, at)[i]
    requires Means(t, texts0, rules0) && Tracks(t, rules0, fake.Perms()) && c.id !in ArgsOf(t, rules0)
    modifies fake, fake.words
    ensures Means(t, texts, rules) && Tracks(t, rules, fake.Perms()) && Sound(fake.Perms()) && texts0 <= texts
    ensures ArgsOf(t, rules) == ArgsOf(t, rules0)
    ensures c.id in fake.Perms().bits <==> userbit
    ensures forall id: nat :: id !in Own(c) ==> (id in fake.Perms().bits <==> id in old(fake.Perms()).bits)
  {
    texts, rules := texts0, rules0;
    var fakebit := fake.GetBit(c.id);
    if userbit != fakebit {
      texts := texts + [Sign(userbit) + c.fullname];
      rules := rules + [OfCommand(c, userbit)];
      LevelIds(t, at, i);
      PermMeans(t, texts0, rules0, at, i, userbit);
      FixTracks(t, rules0, fake.Perms(), c, userbit);
      fake.ChangePerm(c, userbit);
    }
  }

  lemma ArgTracks(t: Table, rules: seq<Rule>, id: nat, args: seq<string>, j: nat, before: map<nat, seq<string>>)
    requires j < |args| && ValidArgs(args) && id !in before
    requires ArgsOf(t, rules) == if j == 0 then before else before[id := args[..j]]
    ensures ArgsOf(t, rules + [OfFirstArg(id, args[j])]) == before[id := args[..j + 1]]
    ensures ApplyAll(t, FRESH, rules + [OfFirstArg(id, args[j])]).bits == ApplyAll(t, FRESH, rules).bits
    ensures ApplyAll(t, FRESH, rules + [OfFirstArg(id, args[j])]).allCommands == ApplyAll(t, FRESH, rules).allCommands
  {
    ApplyOneMore(t, rules, OfFirstArg(id, args[j]));
    assert args[..j + 1] == args[..j] + [args[j]];
    assert !Contains(args[..j], args[j]);
    assert args[..0] == [];
  }

  /** One rule +name|arg for each allowed first argument of a command. */
  method EmitFirstArgs(t: Table, args: seq<string>, c: Command, texts0: seq<string>,
                       ghost rules0: seq<Rule>, ghost i: nat)
      returns (texts: seq<string>, ghost rules: seq<Rule>)
    requires ValidTable(t) && i < |t.commands| && c == t.commands[i] && !c.isContainer && ValidArgs(args)
    requires Means(t, texts0, rules0) && c.id !in ArgsOf(t, rules0)
    ensures Means(t, texts, rules) && texts0 <= texts
    ensures ArgsOf(t, rules) == ArgsOf(t, rules0)[c.id := args]
    ensures ApplyAll(t, FRESH, rules).bits == ApplyAll(t, FRESH, rules0).bits
    ensures ApplyAll(t, FRESH, rules).allCommands == ApplyAll(t, FRESH, rules0).allCommands
  {
    texts, rules := texts0, rules0;
    ghost var before := ArgsOf(t, rules0);
    for j := 0 to |args|
      invariant Means(t, texts, rules) && texts0 <= texts
      invariant ArgsOf(t, rules) == if j == 0 then before else before[c.id := args[..j]]
      invariant ApplyAll(t, FRESH, rules).bits == ApplyAll(t, FRESH, rules0).bits
      invariant ApplyAll(t, FRESH, rules).allCommands == ApplyAll(t, FRESH, rules0).allCommands
    {
      ArgMeans(t, texts, rules, i, args[j]);
      ArgTracks(t, rules, c.id, args, j, before);
      texts := texts + ["+" + c.fullname + "|" + args[j]];
      rules := rules + [OfFirstArg(c.id, args[j])];
    }
    assert args[..|args|] == args;
  }

  // ----- the pass over the tree

  /** A pass over the commands with these ids, from fake selector f0 and rules0 to f and rules:
      those ids now agree with s, the others are as they were. */
  ghost predicate Pass(t: Table, s: Permissions, f0: Permissions, rules0: seq<Rule>,
                       f: Permissions, rules: seq<Rule>, ids: set<nat>)
  {
    && Tracks(t, rules, f)
    && (forall id: nat :: id in ids ==> (id in f.bits <==> id in s.bits))
    && (forall id: nat :: id !in ids ==> (id in f.bits <==> id in f0.bits))
    && (forall id: nat :: id in ids ==> ArgAgrees(s, ArgsOf(t, rules), id))
    && (forall id: nat :: id !in ids ==> SameArg(ArgsOf(t, rules), ArgsOf(t, rules0), id))
  }

  // A first argument is described exactly when the command is not allowed as a whole.
  predicate ArgAgrees(s: Permissions, args: map<nat, seq<string>>, id: nat) {
    && (id in args <==> id in s.firstArgs && id !in s.bits)
    && (id in args ==> args[id] == s.firstArgs[id])
  }

  predicate SameArg(args: map<nat, seq<string>>, args': map<nat, seq<string>>, id: nat) {
    (id in args <==> id in args') && (id in args ==> args[id] == args'[id])
  }

  lemma PassCompose(t: Table, s: Permissions, f0: Permissions, rules0: seq<Rule>,
                    f1: Permissions, rules1: seq<Rule>, f2: Permissions, rules2: seq<Rule>,
                    ids1: set<nat>, ids2: set<nat>)
    requires Pass(t, s, f0, rules0, f1, rules1, ids1) && Pass(t, s, f1, rules1, f2, rules2, ids2)
    ensures ids1 !! ids2 ==> Pass(t, s, f0, rules0, f2, rules2, ids1 + ids2)
  {
  }

  // No rule speaks of the command that is next in the pass.
  lemma NextReady(t: Table, s: Permissions, f0: Permissions, rules0: seq<Rule>, f1: Permissions, rules1: seq<Rule>,
                  at: Option<nat>, i: nat)
    requires ValidTable(t) && (at.Some? ==> at.value < |t.commands|) && i < |Level(t, at)|
    requires ArgsOf(t, rules0).Keys !! Ids(Level(t, at))
    requires Pass(t, s, f0, rules0, f1, rules1, Ids(Level(t, at)[..i]))
    ensures ArgsOf(t, rules1).Keys !! Own(Level(t, at)[i])
  {
    LevelIds(t, at, i);
    IdsStep(Level(t, at), i);
  }

  lemma NextPassed(t: Table, s: Permissions, f0: Permissions, rules0: seq<Rule>, f1: Permissions, rules1: seq<Rule>,
                   f2: Permissions, rules2: seq<Rule>, at: Option<nat>, i: nat)
    requires ValidTable(t) && (at.Some? ==> at.value < |t.commands|) && i < |Level(t, at)|
    requires Pass(t, s, f0, rules0, f1, rules1, Ids(Level(t, at)[..i]))
    requires Pass(t, s, f1, rules1, f2, rules2, Own(Level(t, at)[i]))
    ensures Pass(t, s, f0, rules0, f2, rules2, Ids(Level(t, at)[..i + 1]))
  {
    LevelIds(t, at, i);
    IdsStep(Level(t, at), i);
    PassCompose(t, s, f0, rules0, f1, rules1, f2, rules2, Ids(Level(t, at)[..i]), Own(Level(t, at)[i]));
  }

  /** ACLDescribeSelectorCommandRulesSingleCommands. */
  method SingleCommands(t: Table, sel: Selector, fake: Selector, texts0: seq<string>, cmds: seq<Command>,
                        ghost rules0: seq<Rule>, ghost at: Option<nat>)
      returns (texts: seq<string>, ghost rules: seq<Rule>)
    requires sel.Valid() && fake.Valid() && sel != fake && sel.words != fake.words
    requires ValidTable(t) && Invariant(t, sel.Perms()) && Sound(fake.Perms())
    requires (at.Some? ==> at.value < |t.commands|) && cmds == Level(t, at)
    requires Means(t, texts0, rules0) && Tracks(t, rules0, fake.Perms()) && ArgsOf(t, rules0).Keys !! Ids(cmds)
    modifies fake, fake.words
    ensures Means(t, texts, rules) && Sound(fake.Perms()) && texts0 <= texts
    ensures Pass(t, sel.Perms(), old(fake.Perms()), rules0, fake.Perms(), rules, Ids(cmds))
    decreases cmds, 3
  {
    texts, rules := texts0, rules0;
    var i := 0;
    ghost var s := sel.Perms();
    ghost var f0 := fake.Perms();
    while i < |cmds|
      invariant 0 <= i <= |cmds|
      invariant sel.Perms() == s && Sound(fake.Perms())
      invariant Means(t, texts, rules) && texts0 <= texts
      invariant Pass(t, s, f0, rules0, fake.Perms(), rules, Ids(cmds[..i]))
    {
      ghost var f1, rules1 := fake.Perms(), rules;
      NextReady(t, s, f0, rules0, f1, rules1, at, i);
      texts, rules := SingleCommand(t, sel, fake, texts, cmds[i], rules, at, i);
      NextPassed(t, s, f0, rules0, f1, rules1, fake.Perms(), rules, at, i);
      i := i + 1;
    }
    assert cmds[..i] == cmds;
  }

  // The body of the loop above.
  method SingleCommand(t: Table, sel: Selector, fake: Selector, texts0: seq<string>, c: Command,
                       ghost rules0: seq<Rule>, ghost at: Option<nat>, ghost i: nat)
      returns (texts: seq<string>, ghost rules: seq<Rule>)
    requires sel.Valid() && fake.Valid() && sel != fake && sel.words != fake.words
    requires ValidTable(t) && Invariant(t, sel.Perms()) && Sound(fake.Perms())
    requires (at.Some? ==> at.value < |t.commands|) && i < |Level(t, at)| && c == Level(t, at)[i]
    requires Means(t, texts0, rules0) && Tracks(t, rules0, fake.Perms()) && ArgsOf(t, rules0).Keys !! Own(c)
    modifies fake, fake.words
    ensures Means(t, texts, rules) && Sound(fake.Perms()) && texts0 <= texts
    ensures Pass(t, sel.Perms(), old(fake.Perms()), rules0, fake.Perms(), rules, Own(c))
    decreases c, 2
  {
    ghost var s, f0 := sel.Perms(), fake.Perms();
    var userbit := sel.GetBit(c.id);
    ghost var f1, rules1;
    texts, rules, f1, rules1 := FixAndDescend(t, sel, fake, texts0, c, userbit, rules0, at, i);
    ghost var f2, rules2 := fake.Perms(), rules;
    assert sel.Perms() == s;
    texts, rules := FirstArgRules(t, sel, texts, c, userbit, rules, at, i, f2);
    OneCommand(t, s, f0, rules0, f1, rules1, f2, rules2, rules, c, userbit, at, i);
    assert fake.Perms() == f2;
  }

  // The command itself is fixed in f1, and its subcommands in f2.
  ghost predicate FixedBelow(t: Table, s: Permissions, f0: Permissions, rules0: seq<Rule>, f1: Permissions,
                             rules1: seq<Rule>, f2: Permissions, rules2: seq<Rule>, c: Command, userbit: bool)
  {
    && ArgsOf(t, rules1) == ArgsOf(t, rules0) && (c.id in f1.bits <==> userbit)
    && (forall id: nat :: id !in Own(c) ==> (id in f1.bits <==> id in f0.bits))
    && Pass(t, s, f1, rules1, f2, rules2, Ids(c.subs))
  }

  // The command, then the pass below it.
  method FixAndDescend(t: Table, sel: Selector, fake: Selector, texts0: seq<string>, c: Command, userbit: bool,
                       ghost rules0: seq<Rule>, ghost at: Option<nat>, ghost i: nat)
      returns (texts: seq<string>, ghost rules: seq<Rule>, ghost f1: Permissions, ghost rules1: seq<Rule>)
    requires sel.Valid() && fake.Valid() && sel != fake && sel.words != fake.words
    requires ValidTable(t) && Invariant(t, sel.Perms()) && Sound(fake.Perms())
    requires (at.Some? ==> at.value < |t.commands|) && i < |Level(t, at)| && c == Level(t, at)[i]
    requires Means(t, texts0, rules0) && Tracks(t, rules0, fake.Perms()) && ArgsOf(t, rules0).Keys !! Own(c)
    modifies fake, fake.words
    ensures Means(t, texts, rules) && Sound(fake.Perms()) && texts0 <= texts && c.id !in ArgsOf(t, rules)
    ensures FixedBelow(t, sel.Perms(), old(fake.Perms()), rules0, f1, rules1, fake.Perms(), rules, c, userbit)
    decreases c, 1
  {
    ghost var s := sel.Perms();
    texts, rules := FixCommand(t, fake, c, texts0, userbit, rules0, at, i);
    f1, rules1 := fake.Perms(), rules;
    assert sel.Perms() == s;
    texts, rules := Subcommands(t, sel, fake, texts, c, rules, at, i);
    OwnNotInSubs(t, at, i, s, f1, rules1, fake.Perms(), rules);
  }

  // The pass below one command.
  method Subcommands(t: Table, sel: Selector, fake: Selector, texts0: seq<string>, c: Command,
                     ghost rules0: seq<Rule>, ghost at: Option<nat>, ghost i: nat)
      returns (texts: seq<string>, ghost rules: seq<Rule>)
    requires sel.Valid() && fake.Valid() && sel != fake && sel.words != fake.words
    requires ValidTable(t) && Invariant(t, sel.Perms()) && Sound(fake.Perms())
    requires (at.Some? ==> at.value < |t.commands|) && i < |Level(t, at)| && c == Level(t, at)[i]
    requires Means(t, texts0, rules0) && Tracks(t, rules0, fake.Perms()) && ArgsOf(t, rules0).Keys !! Own(c)
    modifies fake, fake.words
    ensures Means(t, texts, rules) && Sound(fake.Perms()) && texts0 <= texts
    ensures Pass(t, sel.Perms(), old(fake.Perms()), rules0, fake.Perms(), rules, Ids(c.subs))
    decreases c, 0
  {
    texts, rules := texts0, rules0;
    SubsLevel(t, at, i);
    if c.isContainer {
      texts, rules := SingleCommands(t, sel, fake, texts, c.subs, rules, Some(i));
    }
  }

  // Below a command no rule speaks of the command itself.
  lemma OwnNotInSubs(t: Table, at: Option<nat>, i: nat, s: Permissions,
                     f1: Permissions, rules1: seq<Rule>, f2: Permissions, rules2: seq<Rule>)
    requires ValidTable(t) && (at.Some? ==> at.value < |t.commands|) && i < |Level(t, at)|
    requires ArgsOf(t, rules1).Keys !! Own(Level(t, at)[i])
    requires Pass(t, s, f1, rules1, f2, rules2, Ids(Level(t, at)[i].subs))
    ensures Level(t, at)[i].id !in ArgsOf(t, rules2)
  {
    LevelIds(t, at, i);
  }

  ghost function WithArgs(args: map<nat, seq<string>>, s: Permissions, id: nat, userbit: bool): map<nat, seq<string>> {
    if !userbit && id in s.firstArgs then args[id := s.firstArgs[id]] else args
  }

  // The first arguments of a command that is not allowed as a whole.
  method FirstArgRules(t: Table, sel: Selector, texts0: seq<string>, c: Command, userbit: bool,
                       ghost rules0: seq<Rule>, ghost at: Option<nat>, ghost i: nat, ghost f: Permissions)
      returns (texts: seq<string>, ghost rules: seq<Rule>)
    requires sel.Valid() && ValidTable(t) && Invariant(t, sel.Perms())
    requires (at.Some? ==> at.value < |t.commands|) && i < |Level(t, at)| && c == Level(t, at)[i]
    requires Means(t, texts0, rules0) && Tracks(t, rules0, f) && c.id !in ArgsOf(t, rules0)
    ensures Means(t, texts, rules) && Tracks(t, rules, f) && texts0 <= texts
    ensures Equality.Same(ArgsOf(t, rules), WithArgs(ArgsOf(t, rules0), sel.Perms(), c.id, userbit))
  {
    texts, rules := texts0, rules0;
    if !userbit && c.id in sel.firstArgs {
      OnlyTopHasArgs(t, sel.Perms(), at, i);
      texts, rules := EmitFirstArgs(t, sel.firstArgs[c.id], c, texts, rules, i);
    }
  }

  // The three stages of one command put together.
  lemma OneCommand(t: Table, s: Permissions, f0: Permissions, rules0: seq<Rule>, f1: Permissions, rules1: seq<Rule>,
                   f2: Permissions, rules2: seq<Rule>, rules: seq<Rule>, c: Command, userbit: bool,
                   at: Option<nat>, i: nat)
    requires ValidTable(t)
    requires (at.Some? ==> at.value < |t.commands|) && i < |Level(t, at)| && c == Level(t, at)[i]
    requires userbit <==> c.id in s.bits
    requires ArgsOf(t, rules0).Keys !! Own(c)
    requires FixedBelow(t, s, f0, rules0, f1, rules1, f2, rules2, c, userbit) && Tracks(t, rules, f2)
    requires Equality.Same(ArgsOf(t, rules), WithArgs(ArgsOf(t, rules2), s, c.id, userbit))
    ensures Pass(t, s, f0, rules0, f2, rules, Own(c))
  {
    LevelIds(t, at, i);
    OneCommandArgs(s, ArgsOf(t, rules0), ArgsOf(t, rules2), ArgsOf(t, rules), c, userbit);
  }

  lemma OneCommandArgs(
      s: Permissions, args0: map<nat, seq<string>>, args2: map<nat, seq<string>>, args: map<nat, seq<string>>,
      c: Command, userbit: bool)
    requires c.id !in Ids(c.subs) && (userbit <==> c.id in s.bits) && args0.Keys !! Own(c)
    requires forall id: nat :: id in Ids(c.subs) ==> ArgAgrees(s, args2, id)
    requires forall id: nat :: id !in Ids(c.subs) ==> SameArg(args2, args0, id)
    requires Equality.Same(args, WithArgs(args2, s, c.id, userbit))
    ensures forall id: nat :: id in Own(c) ==> ArgAgrees(s, args, id)
    ensures forall id: nat :: id !in Own(c) ==> SameArg(args, args0, id)
  {
    assert SameArg(args2, args0, c.id);
  }

  lemma SubsLevel(t: Table, at: Option<nat>, i: nat)
    requires ValidTable(t) && (at.Some? ==> at.value < |t.commands|) && i < |Level(t, at)|
    ensures Level(t, at)[i].isContainer ==> at.None?
    ensures !Level(t, at)[i].isContainer ==> Level(t, at)[i].subs == []
  {
    if at.None? {
      assert ValidTop(t.commands[i]);
    } else {
      assert ValidTop(t.commands[at.value]);
    }
  }

  // First arguments only occur for top-level commands without subcommands.
  lemma OnlyTopHasArgs(t: Table, s: Permissions, at: Option<nat>, i: nat)
    requires ValidTable(t) && Invariant(t, s) && (at.Some? ==> at.value < |t.commands|) && i < |Level(t, at)|
    requires Level(t, at)[i].id in s.firstArgs
    ensures at.None? && !t.commands[i].isContainer && ValidArgs(s.firstArgs[t.commands[i].id])
  {
    var k := ArgsOwner(t, s, Level(t, at)[i].id);
    if at.None? {
      TopIdUnique(t.commands, k, i);
    } else {
      SubIsNotTop(t, k, at.value, i);
      assert false;
    }
  }

  // ----- choosing categories

  // How many commands of a category have their bit equal to value.
  function CountIn(bits: set<nat>, cmds: seq<Command>, category: nat, value: bool): nat
    decreases cmds
  {
    if cmds == [] then 0
    else
      (if category in cmds[0].categories && (cmds[0].id in bits <==> value) then 1 else 0)
      + CountIn(bits, cmds[0].subs, category, value)
      + CountIn(bits, cmds[1..], category, value)
  }

  // The first command that is left to count, and the others.
  lemma CountStep(bits: set<nat>, cmds: seq<Command>, i: nat, category: nat, value: bool)
    requires i < |cmds|
    ensures CountIn(bits, cmds[i..], category, value)
         == CountIn(bits, [cmds[i]], category, value) + CountIn(bits, cmds[i + 1..], category, value)
  {
    assert cmds[i..][0] == cmds[i] && cmds[i..][1..] == cmds[i + 1..];
    assert [cmds[i]][1..] == [];
  }

  /** ACLCountCategoryBitsForCommands. */
  method CountCategory(sel: Selector, cmds: seq<Command>, category: nat) returns (on: nat, off: nat)
    requires sel.Valid()
    ensures on == CountIn(sel.Perms().bits, cmds, category, true)
    ensures off == CountIn(sel.Perms().bits, cmds, category, false)
    decreases cmds, 1
  {
    on, off := 0, 0;
    ghost var bits := sel.Perms().bits;
    var i := 0;
    while i < |cmds|
      invariant 0 <= i <= |cmds|
      invariant CountIn(bits, cmds, category, true) == on + CountIn(bits, cmds[i..], category, true)
      invariant CountIn(bits, cmds, category, false) == off + CountIn(bits, cmds[i..], category, false)
    {
      CountStep(bits, cmds, i, category, true);
      CountStep(bits, cmds, i, category, false);
      var oneOn, oneOff := CountCommand(sel, cmds[i], category);
      on, off := on + oneOn, off + oneOff;
      i := i + 1;
    }
  }

  // The body of the loop: one command with its subcommands.
  method CountCommand(sel: Selector, c: Command, category: nat) returns (on: nat, off: nat)
    requires sel.Valid()
    ensures on == CountIn(sel.Perms().bits, [c], category, true)
    ensures off == CountIn(sel.Perms().bits, [c], category, false)
    decreases c, 0
  {
    assert [c][1..] == [];
    on, off := CountCategory(sel, c.subs, category);
    if category in c.categories {
      var set_ := sel.GetBit(c.id);
      if set_ {
        on := on + 1;
      } else {
        off := off + 1;
      }
    }
  }

  // Commands of a category that agree / disagree with describing it by one rule.
  function Same(bits: set<nat>, t: Table, j: nat, additive: bool): nat {
    CountIn(bits, t.commands, j, additive)
  }

  function Diff(bits: set<nat>, t: Table, j: nat, additive: bool): nat {
    CountIn(bits, t.commands, j, !additive)
  }

  // Category j may be picked, and is at least as good a pick as category k.
  predicate Candidate(bits: set<nat>, t: Table, j: nat, additive: bool) {
    Same(bits, t, j, additive) > Diff(bits, t, j, additive)
  }

  predicate NotWorse(bits: set<nat>, t: Table, j: nat, k: nat, additive: bool) {
    || Diff(bits, t, j, additive) < Diff(bits, t, k, additive)
    || (Diff(bits, t, j, additive) == Diff(bits, t, k, additive)
        && Same(bits, t, j, additive) >= Same(bits, t, k, additive))
  }

  /** The inner loop of the greedy search: the best category not applied yet, or -1. */
  method BestCategory(t: Table, temp: Selector, applied: array<bool>, additive: bool) returns (best: int)
    requires temp.Valid() && applied.Length == |t.categories|
    ensures -1 <= best < |t.categories|
    ensures best >= 0 ==> !applied[best] && Candidate(temp.Perms().bits, t, best, additive)
    ensures forall k :: 0 <= k < |t.categories| && !applied[k] && Candidate(temp.Perms().bits, t, k, additive) ==>
              best >= 0 && NotWorse(temp.Perms().bits, t, best, k, additive)
  {
    best := -1;
    var mindiff, maxsame := 0, 0;
    ghost var bits := temp.Perms().bits;
    for j := 0 to |t.categories|
      invariant -1 <= best < j
      invariant best >= 0 ==> !applied[best] && Candidate(bits, t, best, additive)
      invariant best >= 0 ==> mindiff == Diff(bits, t, best, additive) && maxsame == Same(bits, t, best, additive)
      invariant forall k :: 0 <= k < j && !applied[k] && Candidate(bits, t, k, additive) ==>
                  best >= 0 && NotWorse(bits, t, best, k, additive)
    {
      if applied[j] {
        continue;
      }
      var on, off := CountCategory(temp, t.commands, j);
      var diff := if additive then off else on;
      var same := if additive then on else off;
      if same > diff && (best == -1 || diff < mindiff || (diff == mindiff && same > maxsame)) {
        best, mindiff, maxsame := j, diff, same;
      }
    }
  }

  // ----- the whole description

  // memcpy of allowed_commands.
  method CopyBitmap(from: Selector, to: Selector)
    requires from.Valid() && to.Valid() && from.words != to.words
    modifies to.words
    ensures to.Perms() == old(to.Perms()).(bits := from.Perms().bits)
  {
    for w := 0 to WORDS
      invariant forall v :: 0 <= v < w ==> to.words[v] == from.words[v]
    {
      to.words[w] := from.words[w];
    }
  }

  // memcmp of allowed_commands.
  method SameBitmap(a: Selector, b: Selector) returns (same: bool)
    requires a.Valid() && b.Valid()
    ensures same <==> a.Perms().bits == b.Perms().bits
  {
    for w := 0 to WORDS
      invariant forall id: nat :: id < 64 * w ==> (id in a.Perms().bits <==> id in b.Perms().bits)
    {
      if a.words[w] != b.words[w] {
        var k :| 0 <= k < 64 && a.words[w][k] != b.words[w][k];
        assert (64 * w + k) / 64 == w && (64 * w + k) % 64 == k;
        assert 64 * w + k in a.Perms().bits <==> 64 * w + k !in b.Perms().bits;
        return false;
      }
    }
    return true;
  }

  /** While only categories were emitted, replaying the rules gives the fake selector itself. */
  ghost predicate CategoryPhase(t: Table, texts: seq<string>, rules: seq<Rule>, s: Permissions, fake: Permissions) {
    && Means(t, texts, rules) && ApplyAll(t, FRESH, rules) == fake
    && Sound(fake) && fake.firstArgs == map[]
    && (forall id: nat :: id < BITS_COUNT && id !in Ids(t.commands) ==> (id in fake.bits <==> id in s.bits))
  }

  lemma CategoryPhaseStep(t: Table, texts: seq<string>, rules: seq<Rule>, s: Permissions, fake: Permissions,
                          k: nat, allow: bool)
    requires ValidTable(t) && k < |t.categories| && CategoryPhase(t, texts, rules, s, fake)
    ensures CategoryPhase(t, texts + [Sign(allow) + "@" + t.categories[k]], rules + [OfCategory(k, allow)], s,
                          ChangeCategory(fake, t.commands, k, allow))
  {
    CategoryMeans(t, texts, rules, k, allow);
    ApplyOneMore(t, rules, OfCategory(k, allow));
    ChangeCategoryEffect(fake, t.commands, k, allow);
  }

  /** +@all or -@all, whichever agrees with the reserved bit. */
  method Start(
      t: Table, sel: Selector, fake: Selector) returns (texts: seq<string>, additive: bool, ghost rules: seq<Rule>)
    requires sel.Valid() && fake.Valid() && sel != fake && sel.words != fake.words
    requires Invariant(t, sel.Perms())
    modifies fake, fake.words
    ensures CategoryPhase(t, texts, rules, sel.Perms(), fake.Perms())
    ensures texts == [if additive then "-@all" else "+@all"]
    ensures additive <==> FUTURE_BIT !in sel.Perms().bits
  {
    var future := sel.GetBit(FUTURE_BIT);
    additive := !future;
    var op := if additive then "-@all" else "+@all";
    assert Lower("-@all")[0] == '-' && Lower("+@all")[0] == '+';
    assert Lower("allcommands")[0] == 'a' && Lower("nocommands")[0] == 'n';
    var _ := fake.SetSelector(t, op);
    texts := [op];
    rules := [if additive then Nothing else Everything];
    assert ApplyAll(t, FRESH, rules) == Apply(t, ApplyAll(t, FRESH, rules[..0]), rules[0]);
  }

  // +@category or -@category, applied and returned.
  method SetCategory(t: Table, sel: Selector, k: nat, allow: bool) returns (op: string)
    requires sel.Valid() && ValidTable(t) && k < |t.categories|
    modifies sel, sel.words
    ensures op == Sign(allow) + "@" + t.categories[k]
    ensures sel.Perms() == ChangeCategory(old(sel.Perms()), t.commands, k, allow)
  {
    op := Sign(allow) + "@" + t.categories[k];
    CategoryRule(t, k, allow);
    var _ := sel.SetSelector(t, op);
  }

  // One round of the greedy loop.
  method ApplyBest(t: Table, fake: Selector, temp: Selector, texts0: seq<string>, best: nat, additive: bool,
                   ghost rules0: seq<Rule>, ghost s: Permissions)
      returns (texts: seq<string>, ghost rules: seq<Rule>)
    requires fake.Valid() && temp.Valid() && fake != temp && fake.words != temp.words
    requires ValidTable(t) && best < |t.categories| && CategoryPhase(t, texts0, rules0, s, fake.Perms())
    modifies fake, fake.words, temp, temp.words
    ensures CategoryPhase(t, texts, rules, s, fake.Perms()) && texts0 <= texts
  {
    CategoryPhaseStep(t, texts0, rules0, s, fake.Perms(), best, additive);
    rules := rules0 + [OfCategory(best, additive)];
    var op := SetCategory(t, fake, best, additive);
    ghost var done := fake.Perms();
    var _ := SetCategory(t, temp, best, !additive);
    assert fake.Perms() == done;
    texts := texts0 + [op];
  }

  /** The greedy loop: categories are applied to the fake selector and taken back from a copy of
      the selector's bitmap until none fits. */
  method Categories(
      t: Table, sel: Selector, fake: Selector, texts0: seq<string>, additive: bool, ghost rules0: seq<Rule>)
      returns (texts: seq<string>, ghost rules: seq<Rule>)
    requires sel.Valid() && fake.Valid() && sel != fake && sel.words != fake.words && ValidTable(t)
    requires CategoryPhase(t, texts0, rules0, sel.Perms(), fake.Perms())
    modifies fake, fake.words
    ensures CategoryPhase(t, texts, rules, sel.Perms(), fake.Perms())
    ensures texts0 <= texts
  {
    var temp := new Selector();
    CopyBitmap(sel, temp);
    var applied := new bool[|t.categories|](_ => false);
    texts, rules := ApplyCategories(t, sel, fake, temp, applied, texts0, additive, rules0);
  }

  // The loop of the category phase: the best category that is left, until none helps.
  method ApplyCategories(
      t: Table, sel: Selector, fake: Selector, temp: Selector, applied: array<bool>, texts0: seq<string>,
      additive: bool, ghost rules0: seq<Rule>)
      returns (texts: seq<string>, ghost rules: seq<Rule>)
    requires sel.Valid() && fake.Valid() && temp.Valid() && sel != fake && sel != temp && fake != temp
    requires sel.words != fake.words && sel.words != temp.words && fake.words != temp.words
    requires applied.Length == |t.categories| && ValidTable(t)
    requires CategoryPhase(t, texts0, rules0, sel.Perms(), fake.Perms())
    modifies fake, fake.words, temp, temp.words, applied
    ensures CategoryPhase(t, texts, rules, sel.Perms(), fake.Perms())
    ensures texts0 <= texts
  {
    texts, rules := texts0, rules0;
    ghost var s := sel.Perms();
    var searching := true;
    ghost var left := set k | 0 <= k < |t.categories| && !applied[k];
    while searching
      invariant sel.Perms() == s
      invariant CategoryPhase(t, texts, rules, s, fake.Perms()) && texts0 <= texts
      invariant forall k :: 0 <= k < |t.categories| && !applied[k] ==> k in left
      decreases searching, left
    {
      var best := BestCategory(t, temp, applied, additive);
      if best == -1 {
        searching := false;
      } else {
        texts, rules := ApplyBest(t, fake, temp, texts, best, additive, rules, s);
        applied[best] := true;
        left := left - {best};
      }
    }
  }

  // Everything before the pass over single commands.
  method CategoryRules(t: Table, sel: Selector, fake: Selector) returns (texts: seq<string>, ghost rules: seq<Rule>)
    requires sel.Valid() && fake.Valid() && sel != fake && sel.words != fake.words
    requires ValidTable(t) && Invariant(t, sel.Perms())
    modifies fake, fake.words
    ensures CategoryPhase(t, texts, rules, sel.Perms(), fake.Perms())
    ensures |texts| > 0 && texts[0] == if FUTURE_BIT in sel.Perms().bits then "+@all" else "-@all"
  {
    var additive;
    texts, additive, rules := Start(t, sel, fake);
    texts, rules := Categories(t, sel, fake, texts, additive, rules);
  }

  /** What a description gives back when its rules are applied to a fresh selector: the bitmap, the
      first arguments of the commands that are not allowed as a whole, and ALLCOMMANDS at most
      when every bit is set. */
  ghost predicate Restores(s: Permissions, r: Permissions) {
    && r.bits == s.bits
    && Sound(r)
    && forall id: nat :: ArgAgrees(s, r.firstArgs, id)
  }

  /** A restored selector permits the same calls, for every command id and first argument. */
  lemma RestoredPermits(s: Permissions, r: Permissions, id: nat, arg: Option<string>)
    requires Sound(s) && Restores(s, r) && id < BITS_COUNT
    ensures Permits(r, id, arg) <==> Permits(s, id, arg)
  {
    assert ArgAgrees(s, r.firstArgs, id);
  }

  lemma PassRestores(t: Table, s: Permissions, texts0: seq<string>, rules0: seq<Rule>, f0: Permissions,
                     f: Permissions, rules: seq<Rule>)
    requires ValidTable(t) && Invariant(t, s) && Sound(f)
    requires CategoryPhase(t, texts0, rules0, s, f0)
    requires Pass(t, s, f0, rules0, f, rules, Ids(t.commands))
    ensures f.bits == s.bits
    ensures Restores(s, ApplyAll(t, FRESH, rules))
  {
    forall id: nat ensures id in f.bits <==> id in s.bits {
      assert f0.bits <= ALL_BITS && s.bits <= ALL_BITS;
    }
    assert f.bits == s.bits;
    forall id: nat ensures ArgAgrees(s, ArgsOf(t, rules), id) {
      if id !in Ids(t.commands) {
        NoArgsOutside(t, s, id);
        assert SameArg(ArgsOf(t, rules), ArgsOf(t, rules0), id);
        assert ArgsOf(t, rules0) == map[];
      }
    }
    var r := ApplyAll(t, FRESH, rules);
    assert Sound(r);
    assert r.firstArgs == ArgsOf(t, rules);
  }

  lemma NoArgsOutside(t: Table, s: Permissions, id: nat)
    requires FirstArgsValid(t, s) && id !in Ids(t.commands)
    ensures id !in s.firstArgs
  {
    if id in s.firstArgs {
      var c :| c in t.commands && c.id == id && !c.isContainer;
      MemberIds(t.commands, c);
    }
  }

  /** Parsing these rules into a fresh selector restores this one. */
  ghost predicate Describes(t: Table, texts: seq<string>, s: Permissions) {
    && |texts| > 0 && texts[0] == (if FUTURE_BIT in s.bits then "+@all" else "-@all")
    && Replay(t, FRESH, texts).Ok? && Restores(s, Replay(t, FRESH, texts).value)
  }

  lemma Described(t: Table, s: Permissions, texts0: seq<string>, rules0: seq<Rule>, f0: Permissions,
                  f: Permissions, texts: seq<string>, rules: seq<Rule>)
    requires ValidTable(t) && Invariant(t, s) && Sound(f) && CategoryPhase(t, texts0, rules0, s, f0)
    requires Pass(t, s, f0, rules0, f, rules, Ids(t.commands)) && Means(t, texts, rules) && texts0 <= texts
    requires |texts0| > 0 && texts0[0] == if FUTURE_BIT in s.bits then "+@all" else "-@all"
    ensures f.bits == s.bits && Describes(t, texts, s)
  {
    PassRestores(t, s, texts0, rules0, f0, f, rules);
    MeansReplay(t, texts, rules);
  }

  // The rules, applied to the fake selector as they are found.
  method Describe(t: Table, sel: Selector, fake: Selector) returns (texts: seq<string>)
    requires sel.Valid() && fake.Valid() && sel != fake && sel.words != fake.words && fake.Perms() == FRESH
    requires ValidTable(t) && Invariant(t, sel.Perms())
    modifies fake, fake.words
    ensures fake.Perms().bits == sel.Perms().bits && Describes(t, texts, sel.Perms())
  {
    ghost var rules;
    texts, rules := CategoryRules(t, sel, fake);
    ghost var texts0, rules0, f0 := texts, rules, fake.Perms();
    texts, rules := SingleCommands(t, sel, fake, texts, t.commands, rules, None);
    Described(t, sel.Perms(), texts0, rules0, f0, fake.Perms(), texts, rules);
  }

  /** ACLDescribeSelectorCommandRules. The panic "No bitmap match" is unreachable, and applying the
      rules to a fresh selector restores the one described. */
  method DescribeCommandRules(t: Table, sel: Selector) returns (texts: seq<string>, panicked: bool)
    requires sel.Valid() && ValidTable(t) && Invariant(t, sel.Perms())
    ensures !panicked && Describes(t, texts, sel.Perms())
  {
    var fake := new Selector();
    texts := Describe(t, sel, fake);
    var same := SameBitmap(fake, sel);
    panicked := !same;
  }
}
