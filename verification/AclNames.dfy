/** Names in ACL rules: which command a name means, and which rules are refused with which error. */
module AclNames {
  import opened Options
  import opened AclModel
  import opened AclInvariant
  import opened AclEffects

  lemma LowerBar(s: string, i: nat)
    requires i < |s|
    ensures Lower(s)[i] == '|' <==> s[i] == '|'
  {
  }

  lemma SameBars(a: string, b: string)
    requires SameName(a, b)
    ensures |a| == |b| && forall i :: 0 <= i < |a| ==> (a[i] == '|' <==> b[i] == '|')
  {
    assert |Lower(a)| == |Lower(b)|;
    forall i | 0 <= i < |a|
      ensures a[i] == '|' <==> b[i] == '|'
    {
      LowerBar(a, i);
      LowerBar(b, i);
    }
  }

  // Names that are joined at a bar are the same iff their parts are.
  lemma JoinedNames(a: string, b: string, name: string, k: nat)
    requires |a| == k < |name| && name[k] == '|'
    ensures SameName(a + "|" + b, name) <==> SameName(a, name[..k]) && SameName(b, name[k + 1..])
  {
    var whole := a + "|" + b;
    assert whole[..k] == a && whole[k] == '|' && whole[k + 1..] == b;
    assert Lower(name)[..k] == Lower(name[..k]) && Lower(name)[k + 1..] == Lower(name[k + 1..]);
    assert Lower(whole)[..k] == Lower(a) && Lower(whole)[k + 1..] == Lower(b);
    assert Lower(whole)[k] == '|' && Lower(name)[k] == '|';
    if SameName(a, name[..k]) && SameName(b, name[k + 1..]) {
      assert Lower(whole) == Lower(a) + "|" + Lower(b);
      assert Lower(name) == Lower(name[..k]) + "|" + Lower(name[k + 1..]);
    }
  }

  lemma FindUnique(cmds: seq<Command>, name: string, i: nat)
    requires DistinctNames(cmds) && i < |cmds| && SameName(cmds[i].name, name)
    ensures Find(cmds, name) == Some(cmds[i])
  {
    var r := Find(cmds, name);
    assert cmds[i] in cmds;
    var m: nat :| m < |cmds| && cmds[m] == r.value;
  }

  lemma FoundAt(cmds: seq<Command>, name: string) returns (i: nat)
    requires Find(cmds, name).Some?
    ensures i < |cmds| && Find(cmds, name) == Some(cmds[i]) && SameName(cmds[i].name, name)
  {
    i :| i < |cmds| && cmds[i] == Find(cmds, name).value;
  }

  lemma FirstBarAt(s: string, k: nat, i: nat)
    requires i <= k < |s| && s[k] == '|' && forall j :: i <= j < k ==> s[j] != '|'
    ensures FirstBar(s, i) == k
  {
    var r := FirstBar(s, i);
  }

  lemma NoBar(s: string, i: nat)
    requires i <= |s| && forall j :: i <= j < |s| ==> s[j] != '|'
    ensures FirstBar(s, i) == |s|
  {
    var r := FirstBar(s, i);
  }

  lemma NamedTop(t: Table, i: nat, name: string)
    requires ValidTable(t) && i < |t.commands| && SameName(t.commands[i].fullname, name)
    ensures Lookup(t, name) == Some(t.commands[i])
  {
    assert ValidTop(t.commands[i]);
    SameBars(t.commands[i].fullname, name);
    NoBar(name, 0);
    FindUnique(t.commands, name, i);
  }

  lemma NamedSub(t: Table, i: nat, j: nat, name: string)
    requires ValidTable(t) && i < |t.commands| && j < |t.commands[i].subs|
    requires SameName(t.commands[i].subs[j].fullname, name)
    ensures Lookup(t, name) == Some(t.commands[i].subs[j])
  {
    var c := t.commands[i];
    var sub, k := c.subs[j], |c.name|;
    assert ValidTop(c) && ValidSub(sub, c.name);
    SameBars(sub.fullname, name);
    assert sub.fullname[k] == '|' && forall m :: 0 <= m < k ==> sub.fullname[m] == c.name[m];
    assert forall m :: k < m < |sub.fullname| ==> sub.fullname[m] == sub.name[m - k - 1];
    FirstBarAt(name, k, 0);
    NoBar(name, k + 1);
    JoinedNames(c.name, sub.name, name, k);
    FindUnique(t.commands, name[..k], i);
    FindUnique(c.subs, name[k + 1..], j);
  }

  /** A name means the command whose full name it is, in any case, and nothing if there is none. */
  lemma LookupExact(t: Table, name: string, p: Place)
    requires ValidTable(t) && Stands(t, p) && SameName(At(t, p).fullname, name)
    ensures Lookup(t, name) == Some(At(t, p))
  {
    if p.Top? {
      NamedTop(t, p.i, name);
    } else {
      NamedSub(t, p.i, p.j, name);
    }
  }

  lemma LookedUp(t: Table, name: string) returns (p: Place)
    requires ValidTable(t) && Lookup(t, name).Some?
    ensures Stands(t, p) && Lookup(t, name) == Some(At(t, p)) && SameName(At(t, p).fullname, name)
  {
    var k := FirstBar(name);
    if k == |name| {
      var i := FoundAt(t.commands, name);
      assert ValidTop(t.commands[i]);
      p := Top(i);
    } else {
      var i := FoundAt(t.commands, name[..k]);
      var c := t.commands[i];
      var j := FoundAt(c.subs, name[k + 1..]);
      assert ValidTop(c) && ValidSub(c.subs[j], c.name);
      SameBars(c.name, name[..k]);
      JoinedNames(c.name, c.subs[j].name, name, k);
      p := Sub(i, j);
    }
  }

  // Some command of the table has this name.
  ghost predicate Named(t: Table, name: string) {
    exists p :: Stands(t, p) && SameName(At(t, p).fullname, name)
  }

  lemma LookupNamed(t: Table, name: string)
    requires ValidTable(t)
    ensures Lookup(t, name).Some? <==> Named(t, name)
  {
    if Named(t, name) {
      var p :| Stands(t, p) && SameName(At(t, p).fullname, name);
      LookupExact(t, name, p);
    } else if Lookup(t, name).Some? {
      var p := LookedUp(t, name);
    }
  }

  // ----- refused rules

  /** What starts with neither + nor - and is no keyword is no rule on commands. */
  lemma UnsignedRefused(t: Table, op: string)
    requires !SameName(op, "allcommands") && !SameName(op, "nocommands") && (op != "" ==> op[0] != '+' && op[0] != '-')
    ensures Parse(t, op) == Err(Invalid)
  {
    if op != "" {
      assert Lower(op)[0] != '+' && Lower(op)[0] != '-';
      assert Lower("+@all")[0] == '+' && Lower("-@all")[0] == '-';
    } else {
      SameNameAs(op, "+@all");
      SameNameAs(op, "-@all");
    }
  }

  lemma SignedText(op: string)
    requires op != "" && (op[0] == '+' || op[0] == '-') && !(|op| > 1 && op[1] == '@')
    ensures !SameName(op, "allcommands") && !SameName(op, "nocommands")
    ensures !SameName(op, "+@all") && !SameName(op, "-@all")
  {
    SignedName(op, "allcommands");
    SignedName(op, "nocommands");
    if |op| == 5 {
      assert Lower(op)[1] == LowerChar(op[1]) && Lower("+@all")[1] == '@' && Lower("-@all")[1] == '@';
    } else {
      SameNameAs(op, "+@all");
      SameNameAs(op, "-@all");
    }
  }

  /** -name and, without a bar, +name are refused iff no command has this name. */
  lemma NameRefused(t: Table, sign: char, name: string)
    requires ValidTable(t) && (sign == '-' || (sign == '+' && '|' !in name)) && !(name != "" && name[0] == '@')
    ensures var r := Parse(t, [sign] + name); if Named(t, name) then r.Ok? else r == Err(NoEntry)
  {
    var op := [sign] + name;
    assert op[1..] == name;
    SignedText(op);
    LookupNamed(t, name);
  }

  lemma AllowText(t: Table, name: string, arg: string)
    requires '|' !in arg && !(name != "" && name[0] == '@')
    ensures Parse(t, "+" + name + "|" + arg) == ParseAllow(t, name + "|" + arg)
  {
    var op := "+" + name + "|" + arg;
    assert op[1..] == name + "|" + arg && op[1] == if name != "" then name[0] else '|';
    SignedText(op);
  }

  /** +name|arg is refused as unknown if no command has this name. */
  lemma UnknownArgRefused(t: Table, name: string, arg: string)
    requires ValidTable(t) && '|' !in arg && !(name != "" && name[0] == '@') && !Named(t, name)
    ensures Parse(t, "+" + name + "|" + arg) == Err(NoEntry)
  {
    AllowText(t, name, arg);
    LastBarOf(name, arg);
    LookupNamed(t, name);
  }

  /** Otherwise it is refused for a subcommand, then for an empty argument; with a container, iff it has no such
      subcommand. */
  lemma ArgRefused(t: Table, name: string, arg: string, p: Place)
    requires ValidTable(t) && '|' !in arg && !(name != "" && name[0] == '@')
    requires Stands(t, p) && SameName(At(t, p).fullname, name)
    ensures var r := Parse(t, "+" + name + "|" + arg);
      if p.Sub? then r == Err(IsChild)
      else if arg == "" then r == Err(Invalid)
      else if !At(t, p).isContainer then r == Ok(OfFirstArg(At(t, p).id, arg))
      else if Named(t, name + "|" + arg) then r.Ok? && r.value.OfCommand? && r.value.allow
      else r == Err(NoEntry)
  {
    AllowText(t, name, arg);
    LastBarOf(name, arg);
    LookupNamed(t, name + "|" + arg);
    LookupExact(t, name, p);
    assert ValidTop(t.commands[p.i]);
    assert p.Sub? ==> ValidSub(At(t, p), t.commands[p.i].name);
  }

  lemma LastBarOf(name: string, arg: string)
    requires '|' !in arg
    ensures var n := name + "|" + arg; LastBar(n) == |name| && n[..|name|] == name && n[|name| + 1..] == arg
  {
    var n := name + "|" + arg;
    assert n[|name|] == '|' && forall l :: |name| < l < |n| ==> n[l] == arg[l - |name| - 1];
  }

  lemma {:induction false} CategoryUnknown(names: seq<string>, name: string)
    requires forall i :: 0 <= i < |names| ==> !SameName(names[i], name)
    ensures FindCategory(names, name) == None
    decreases |names|
  {
    if names != [] {
      CategoryUnknown(names[..|names| - 1], name);
    }
  }

  /** +@name and -@name are refused if there is no such category. */
  lemma CategoryRefused(t: Table, sign: char, name: string)
    requires (sign == '+' || sign == '-') && !SameName(name, "all")
    requires forall i :: 0 <= i < |t.categories| ==> !SameName(t.categories[i], name)
    ensures Parse(t, [sign] + "@" + name) == Err(NoEntry)
  {
    var op := [sign] + "@" + name;
    assert op[2..] == name && op[1] == '@';
    SignedName(op, "allcommands");
    SignedName(op, "nocommands");
    assert "+@all"[2..] == "all" && "-@all"[2..] == "all";
    NotAllCategories(op, "+@all");
    NotAllCategories(op, "-@all");
    CategoryUnknown(t.categories, name);
  }
}
