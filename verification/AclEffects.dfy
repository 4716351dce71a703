/** What each ACL rule does to each command of the table, and which calls a selector permits afterwards. */
module AclEffects {
  import opened Options
  import opened AclModel
  import opened AclInvariant

  // ----- which ids a change reaches

  ghost predicate Has(cmds: seq<Command>, id: nat) {
    exists i :: 0 <= i < |cmds| && cmds[i].id == id
  }

  // A command of the category that is no module command.
  predicate InCategory(c: Command, k: nat) {
    !c.isModule && k in c.categories
  }

  // Changing category k through c reaches this id: through c itself, or through a subcommand.
  ghost predicate Reaches(c: Command, k: nat, id: nat) {
    !c.isModule && ((k in c.categories && (id == c.id || Has(c.subs, id))) || Chosen(c.subs, k, id))
  }

  ghost predicate Chosen(cmds: seq<Command>, k: nat, id: nat) {
    exists i :: 0 <= i < |cmds| && InCategory(cmds[i], k) && cmds[i].id == id
  }

  ghost predicate Reached(cmds: seq<Command>, k: nat, id: nat) {
    exists i :: 0 <= i < |cmds| && Reaches(cmds[i], k, id)
  }

  // First arguments go where the command itself, or the subcommand itself, is in the category.
  ghost predicate Resets(c: Command, k: nat, id: nat) {
    (InCategory(c, k) && c.id == id) || (!c.isModule && Chosen(c.subs, k, id))
  }

  ghost predicate Reset(cmds: seq<Command>, k: nat, id: nat) {
    exists i :: 0 <= i < |cmds| && Resets(cmds[i], k, id)
  }

  lemma HasStep(cmds: seq<Command>, id: nat)
    requires cmds != []
    ensures Has(cmds, id) <==> cmds[0].id == id || Has(cmds[1..], id)
  {
    if i: nat :| i < |cmds| && cmds[i].id == id && i > 0 {
      assert cmds[1..][i - 1].id == id;
    }
    if i: nat :| i < |cmds[1..]| && cmds[1..][i].id == id {
      assert cmds[i + 1].id == id;
    }
  }

  lemma ChosenStep(cmds: seq<Command>, k: nat, id: nat)
    requires cmds != []
    ensures Chosen(cmds, k, id) <==> (InCategory(cmds[0], k) && cmds[0].id == id) || Chosen(cmds[1..], k, id)
  {
    if i: nat :| i < |cmds| && InCategory(cmds[i], k) && cmds[i].id == id && i > 0 {
      assert InCategory(cmds[1..][i - 1], k);
    }
    if i: nat :| i < |cmds[1..]| && InCategory(cmds[1..][i], k) && cmds[1..][i].id == id {
      assert InCategory(cmds[i + 1], k);
    }
  }

  lemma ReachedStep(cmds: seq<Command>, k: nat, id: nat)
    requires cmds != []
    ensures Reached(cmds, k, id) <==> Reaches(cmds[0], k, id) || Reached(cmds[1..], k, id)
    ensures Reset(cmds, k, id) <==> Resets(cmds[0], k, id) || Reset(cmds[1..], k, id)
  {
    if i: nat :| i < |cmds| && Reaches(cmds[i], k, id) && i > 0 {
      assert Reaches(cmds[1..][i - 1], k, id);
    }
    if i: nat :| i < |cmds| && Resets(cmds[i], k, id) && i > 0 {
      assert Resets(cmds[1..][i - 1], k, id);
    }
    if i: nat :| i < |cmds[1..]| && Reaches(cmds[1..][i], k, id) {
      assert Reaches(cmds[i + 1], k, id);
    }
    if i: nat :| i < |cmds[1..]| && Resets(cmds[1..][i], k, id) {
      assert Resets(cmds[i + 1], k, id);
    }
  }

  // ----- the effect on one id

  lemma {:induction false} SetBitsExact(s: Permissions, cmds: seq<Command>, value: bool, id: nat)
    requires id < BITS_COUNT
    ensures id in SetBits(s, cmds, value).bits <==> if Has(cmds, id) then value else id in s.bits
    ensures SetBits(s, cmds, value).firstArgs == s.firstArgs
    decreases |cmds|
  {
    if cmds != [] {
      HasStep(cmds, id);
      SetBitsExact(SetBit(s, cmds[0].id, value), cmds[1..], value, id);
    }
  }

  lemma ChangePermExact(s: Permissions, c: Command, allow: bool, id: nat)
    requires id < BITS_COUNT
    ensures id in ChangePerm(s, c, allow).bits <==> if id == c.id || Has(c.subs, id) then allow else id in s.bits
    ensures ChangePerm(s, c, allow).firstArgs == s.firstArgs - {c.id}
  {
    SetBitsExact(ResetFirstArgs(SetBit(s, c.id, allow), c.id), c.subs, allow, id);
  }

  // s' has this id as it is told to.
  ghost predicate Changed(s: Permissions, s': Permissions, id: nat, touched: bool, allow: bool, reset: bool) {
    && (id in s'.bits <==> if touched then allow else id in s.bits)
    && (id in s'.firstArgs <==> id in s.firstArgs && !reset)
    && (id in s'.firstArgs ==> s'.firstArgs[id] == s.firstArgs[id])
  }

  lemma {:induction false} FlatCategory(s: Permissions, cmds: seq<Command>, k: nat, allow: bool, id: nat)
    requires id < BITS_COUNT && forall i :: 0 <= i < |cmds| ==> cmds[i].subs == []
    ensures Changed(s, ChangeCategory(s, cmds, k, allow), id, Chosen(cmds, k, id), allow, Chosen(cmds, k, id))
    decreases |cmds|
  {
    if cmds != [] {
      var c := cmds[0];
      ChosenStep(cmds, k, id);
      assert c.subs == [];
      ChangePermExact(s, c, allow, id);
      var s1 := if InCategory(c, k) then ChangePerm(s, c, allow) else s;
      FlatCategory(s1, cmds[1..], k, allow, id);
    }
  }

  // The steps for one command of the list, subcommands included.
  lemma OneCategory(s: Permissions, c: Command, k: nat, allow: bool, id: nat, s2: Permissions)
    requires id < BITS_COUNT && (forall i :: 0 <= i < |c.subs| ==> c.subs[i].subs == [])
    requires s2 == if c.isModule then s
      else ChangeCategory(if k in c.categories then ChangePerm(s, c, allow) else s, c.subs, k, allow)
    ensures Changed(s, s2, id, Reaches(c, k, id), allow, Resets(c, k, id))
  {
    if !c.isModule {
      ChangePermExact(s, c, allow, id);
      FlatCategory(if k in c.categories then ChangePerm(s, c, allow) else s, c.subs, k, allow, id);
    }
  }

  lemma {:induction false} CategoryExact(s: Permissions, cmds: seq<Command>, k: nat, allow: bool, id: nat)
    requires id < BITS_COUNT
    requires forall i, j :: 0 <= i < |cmds| && 0 <= j < |cmds[i].subs| ==> cmds[i].subs[j].subs == []
    ensures Changed(s, ChangeCategory(s, cmds, k, allow), id, Reached(cmds, k, id), allow, Reset(cmds, k, id))
    decreases |cmds|
  {
    if cmds != [] {
      var c := cmds[0];
      var s2 := if c.isModule then s
        else ChangeCategory(if k in c.categories then ChangePerm(s, c, allow) else s, c.subs, k, allow);
      ReachedStep(cmds, k, id);
      OneCategory(s, c, k, allow, id, s2);
      CategoryExact(s2, cmds[1..], k, allow, id);
    }
  }

  // ----- the commands of a valid table

  /** Where a command stands: in the table, or under a command of it. */
  datatype Place = Top(i: nat) | Sub(i: nat, j: nat)

  predicate Stands(t: Table, p: Place) {
    p.i < |t.commands| && (p.Sub? ==> p.j < |t.commands[p.i].subs|)
  }

  function At(t: Table, p: Place): Command
    requires Stands(t, p)
  {
    if p.Top? then t.commands[p.i] else t.commands[p.i].subs[p.j]
  }

  lemma {:induction false} HasId(cmds: seq<Command>, id: nat)
    requires Has(cmds, id)
    ensures id in Ids(cmds)
  {
    var i: nat :| i < |cmds| && cmds[i].id == id;
    MemberIds(cmds, cmds[i]);
  }

  lemma PlaceIds(t: Table, p: Place)
    requires ValidTable(t) && Stands(t, p)
    ensures At(t, p).id in Own(t.commands[p.i]) && At(t, p).id < FUTURE_BIT
    ensures t.commands[p.i].id !in Ids(t.commands[p.i].subs) && DistinctIds(t.commands[p.i].subs)
  {
    IdsStep(t.commands, p.i);
    if p.Sub? {
      MemberIds(t.commands[p.i].subs, At(t, p));
    }
  }

  // Only its own top-level command can reach it.
  lemma ReachesOwn(c: Command, k: nat, id: nat)
    requires Reaches(c, k, id) || Resets(c, k, id)
    ensures id in Own(c)
  {
    if id != c.id {
      assert Has(c.subs, id);
      HasId(c.subs, id);
    }
  }

  lemma ReachedAt(t: Table, p: Place, k: nat)
    requires ValidTable(t) && Stands(t, p)
    ensures Reached(t.commands, k, At(t, p).id) <==> Reaches(t.commands[p.i], k, At(t, p).id)
    ensures Reset(t.commands, k, At(t, p).id) <==> Resets(t.commands[p.i], k, At(t, p).id)
  {
    var id := At(t, p).id;
    PlaceIds(t, p);
    if m: nat :| m < |t.commands| && Reaches(t.commands[m], k, id) {
      ReachesOwn(t.commands[m], k, id);
      OwnUnique(t.commands, m, p.i, id);
    }
    if m: nat :| m < |t.commands| && Resets(t.commands[m], k, id) {
      ReachesOwn(t.commands[m], k, id);
      OwnUnique(t.commands, m, p.i, id);
    }
  }

  lemma ChosenAt(cmds: seq<Command>, j: nat, k: nat)
    requires j < |cmds| && DistinctIds(cmds)
    ensures Chosen(cmds, k, cmds[j].id) <==> InCategory(cmds[j], k)
  {
    if m: nat :| m < |cmds| && InCategory(cmds[m], k) && cmds[m].id == cmds[j].id {
      TopIdUnique(cmds, m, j);
    }
  }

  lemma NotChosen(cmds: seq<Command>, k: nat, id: nat)
    requires id !in Ids(cmds)
    ensures !Chosen(cmds, k, id) && !Has(cmds, id)
  {
    if Has(cmds, id) {
      HasId(cmds, id);
    }
  }

  /** A category rule concerns the commands in the category, with their subcommands, and subcommands that are in it
      themselves; module commands are left alone. */
  predicate Concerned(t: Table, p: Place, k: nat)
    requires Stands(t, p)
  {
    var c := t.commands[p.i];
    !c.isModule && (k in c.categories || (p.Sub? && InCategory(At(t, p), k)))
  }

  lemma ConcernedAt(t: Table, p: Place, k: nat)
    requires ValidTable(t) && Stands(t, p)
    ensures Reached(t.commands, k, At(t, p).id) <==> Concerned(t, p, k)
    ensures p.Top? ==> (Reset(t.commands, k, At(t, p).id) <==> Concerned(t, p, k))
  {
    var c, id := t.commands[p.i], At(t, p).id;
    PlaceIds(t, p);
    ReachedAt(t, p, k);
    if p.Top? {
      NotChosen(c.subs, k, id);
    } else {
      assert Has(c.subs, id);
      ChosenAt(c.subs, p.j, k);
    }
  }

  lemma FlatTable(t: Table)
    requires ValidTable(t)
    ensures forall i, j :: 0 <= i < |t.commands| && 0 <= j < |t.commands[i].subs| ==> t.commands[i].subs[j].subs == []
  {
    forall i, j | 0 <= i < |t.commands| && 0 <= j < |t.commands[i].subs|
      ensures t.commands[i].subs[j].subs == []
    {
      assert ValidTop(t.commands[i]);
      assert ValidSub(t.commands[i].subs[j], t.commands[i].name);
    }
  }

  /** Which bits a category rule changes: those of the commands it concerns, and no others. */
  lemma CategoryEffect(t: Table, s: Permissions, k: nat, allow: bool, p: Place)
    requires ValidTable(t) && Stands(t, p)
    ensures var c, id, s' := t.commands[p.i], At(t, p).id, Apply(t, s, OfCategory(k, allow));
      && (p.Top? ==> (id in s'.bits <==> if !c.isModule && k in c.categories then allow else id in s.bits))
      && (p.Sub? ==> var sub := c.subs[p.j];
           (id in s'.bits <==>
             if !c.isModule && (k in c.categories || (!sub.isModule && k in sub.categories)) then allow
             else id in s.bits))
      && (p.Top? ==> (id in s'.firstArgs <==> id in s.firstArgs && (c.isModule || k !in c.categories)))
      && (id in s'.firstArgs ==> id in s.firstArgs && s'.firstArgs[id] == s.firstArgs[id])
  {
    PlaceIds(t, p);
    FlatTable(t);
    CategoryExact(s, t.commands, k, allow, At(t, p).id);
    ConcernedAt(t, p, k);
  }

  // ----- which calls are permitted afterwards

  lemma PermitsMeans(s: Permissions, id: nat, arg: Option<string>)
    requires Sound(s) && id < BITS_COUNT
    ensures Permits(s, id, arg)
       <==> id in s.bits || (arg.Some? && id in s.firstArgs && Contains(s.firstArgs[id], arg.value))
  {
  }

  // Subcommands have no first arguments.
  lemma SubHasNoArgs(t: Table, s: Permissions, p: Place)
    requires ValidTable(t) && Invariant(t, s) && Stands(t, p) && p.Sub?
    ensures At(t, p).id !in s.firstArgs
  {
    if At(t, p).id in s.firstArgs {
      var k := ArgsOwner(t, s, At(t, p).id);
      SubIsNotTop(t, k, p.i, p.j);
    }
  }

  /** +@category and -@category decide for every command they concern, whatever the call, and for no other. */
  lemma CategoryPermits(t: Table, s: Permissions, k: nat, allow: bool, p: Place, arg: Option<string>)
    requires ValidTable(t) && Invariant(t, s) && k < |t.categories| && Stands(t, p)
    ensures var r, id := Parse(t, Sign(allow) + "@" + t.categories[k]), At(t, p).id;
      r.Ok? && (Permits(Apply(t, s, r.value), id, arg) <==> if Concerned(t, p, k) then allow else Permits(s, id, arg))
  {
    CategoryRule(t, k, allow);
    var s' := Apply(t, s, OfCategory(k, allow));
    RuleKeeps(t, s, OfCategory(k, allow));
    PlaceIds(t, p);
    CategoryEffect(t, s, k, allow, p);
    PermitsMeans(s, At(t, p).id, arg);
    PermitsMeans(s', At(t, p).id, arg);
    if p.Sub? {
      SubHasNoArgs(t, s, p);
    }
  }

  // Which commands a rule for the command at q changes.
  lemma CommandAt(t: Table, p: Place, q: Place)
    requires ValidTable(t) && Stands(t, p) && Stands(t, q)
    ensures var id, d := At(t, p).id, At(t, q);
      (id == d.id || Has(d.subs, id) <==> p == q || (p.Sub? && q == Top(p.i))) && (id == d.id <==> p == q)
  {
    var id, d := At(t, p).id, At(t, q);
    PlaceIds(t, p);
    PlaceIds(t, q);
    FlatTable(t);
    if id == d.id || Has(d.subs, id) {
      if id != d.id {
        HasId(d.subs, id);
      }
      OwnUnique(t.commands, p.i, q.i, id);
      if p.Sub? && q.Sub? {
        TopIdUnique(t.commands[p.i].subs, p.j, q.j);
      } else if p.Sub? {
        MemberIds(t.commands[p.i].subs, At(t, p));
      } else if q.Sub? {
        MemberIds(t.commands[p.i].subs, d);
      }
    }
  }

  lemma CommandText(t: Table, q: Place, allow: bool)
    requires ValidTable(t) && Stands(t, q)
    ensures Parse(t, Sign(allow) + At(t, q).fullname) == Ok(OfCommand(At(t, q), allow))
    ensures ValidRule(t, OfCommand(At(t, q), allow))
  {
    if q.Top? {
      TopRule(t, q.i, allow);
    } else {
      SubRule(t, q.i, q.j, allow);
    }
    ParsedRuleValid(t, Sign(allow) + At(t, q).fullname);
  }

  /** +command and -command decide for this command and its subcommands, whatever the call, and for no other. */
  lemma CommandPermits(t: Table, s: Permissions, q: Place, allow: bool, p: Place, arg: Option<string>)
    requires ValidTable(t) && Invariant(t, s) && Stands(t, q) && Stands(t, p)
    ensures var r, id := Parse(t, Sign(allow) + At(t, q).fullname), At(t, p).id;
      r.Ok? && (Permits(Apply(t, s, r.value), id, arg) <==>
        if p == q || (p.Sub? && q == Top(p.i)) then allow else Permits(s, id, arg))
  {
    CommandText(t, q, allow);
    var s' := Apply(t, s, OfCommand(At(t, q), allow));
    RuleKeeps(t, s, OfCommand(At(t, q), allow));
    PlaceIds(t, p);
    CommandAt(t, p, q);
    ChangePermExact(s, At(t, q), allow, At(t, p).id);
    PermitsMeans(s, At(t, p).id, arg);
    PermitsMeans(s', At(t, p).id, arg);
    if p.Sub? {
      SubHasNoArgs(t, s, p);
    }
  }

  /** +command|arg permits, besides what was permitted, this command with this first argument in any case. */
  lemma FirstArgPermits(t: Table, s: Permissions, i: nat, a: string, p: Place, arg: Option<string>)
    requires ValidTable(t) && Invariant(t, s) && i < |t.commands| && !t.commands[i].isContainer
    requires a != "" && '|' !in a && Stands(t, p)
    ensures var r, id := Parse(t, "+" + t.commands[i].fullname + "|" + a), At(t, p).id;
      r.Ok? && (Permits(Apply(t, s, r.value), id, arg) <==>
        Permits(s, id, arg) || (p == Top(i) && arg.Some? && SameName(a, arg.value)))
  {
    FirstArgRule(t, i, a);
    CommandAt(t, p, Top(i));
    AddArgPermits(s, t.commands[i].id, a, At(t, p).id, arg);
  }

  lemma AddArgPermits(s: Permissions, to: nat, a: string, id: nat, arg: Option<string>)
    ensures Permits(AddFirstArg(s, to, a), id, arg)
       <==> Permits(s, id, arg) || (id == to && arg.Some? && SameName(a, arg.value))
  {
    ContainsMore(if to in s.firstArgs then s.firstArgs[to] else [], a, arg);
  }

  lemma ContainsMore(args: seq<string>, a: string, arg: Option<string>)
    ensures arg.Some? ==> (Contains(args + [a], arg.value) <==> Contains(args, arg.value) || SameName(a, arg.value))
    ensures arg.Some? && Contains(args, a) && SameName(a, arg.value) ==> Contains(args, arg.value)
    ensures arg.Some? ==> !Contains([], arg.value)
  {
    if arg.Some? {
      assert (args + [a])[|args|] == a;
      if i: nat :| i < |args| && SameName(args[i], arg.value) {
        assert (args + [a])[i] == args[i];
      }
    }
  }

  /** allcommands permits everything, nocommands nothing. */
  lemma AllPermits(t: Table, s: Permissions, id: nat, arg: Option<string>)
    ensures Parse(t, "allcommands").Ok? && Permits(Apply(t, s, Parse(t, "allcommands").value), id, arg)
    ensures Parse(t, "nocommands").Ok? && !Permits(Apply(t, s, Parse(t, "nocommands").value), id, arg)
  {
    SameNameAs("nocommands", "allcommands");
  }

  lemma SameNameAs(a: string, b: string)
    requires |a| != |b|
    ensures !SameName(a, b)
  {
    assert |Lower(a)| != |Lower(b)|;
  }
}
