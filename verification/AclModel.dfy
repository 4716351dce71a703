/** Values behind acl.c: the command tree, the command permissions of a selector, and what each ACL
    rule does to them. */
module AclModel {
  import opened Options

  /** errno values of ACLSetSelector. */
  datatype Error = NoEntry | IsChild | Invalid

  datatype Result<T> = Ok(value: T) | Err(error: Error)

  // USER_COMMAND_BITS_COUNT; its last bit is reserved.
  const BITS_COUNT := 1024
  const FUTURE_BIT := BITS_COUNT - 1

  /** A struct redisCommand; isContainer says that subcommands_dict is not NULL, and a NULL dict
      has no entries. */
  datatype Command = Command(
    name: string, fullname: string, id: nat, categories: set<nat>,
    isModule: bool, hasParent: bool, isContainer: bool, subs: seq<Command>)

  /** server.orig_commands in the order a dict iterator happens to take, and the names of
      ACLCommandCategories. */
  datatype Table = Table(commands: seq<Command>, categories: seq<string>)

  /** The command part of an aclSelector. A missing key of firstArgs is a NULL entry. */
  datatype Permissions = Permissions(bits: set<nat>, allCommands: bool, firstArgs: map<nat, seq<string>>)

  const FRESH := Permissions({}, false, map[])

  // ----- names

  function LowerChar(c: char): char {
    if 'A' <= c <= 'Z' then c - 'A' + 'a' else c
  }

  function Lower(s: string): (r: string)
    ensures |r| == |s|
    ensures forall i :: 0 <= i < |s| ==> r[i] == LowerChar(s[i])
  {
    seq(|s|, i requires 0 <= i < |s| => LowerChar(s[i]))
  }

  // strcasecmp(a, b) == 0
  predicate SameName(a: string, b: string) {
    Lower(a) == Lower(b)
  }

  // Position of the first / last '|' at or after / before i, or |s| / -1.
  function FirstBar(s: string, i: nat := 0): (k: nat)
    requires i <= |s|
    ensures i <= k <= |s|
    ensures k < |s| ==> s[k] == '|'
    ensures forall j :: i <= j < k ==> s[j] != '|'
    decreases |s| - i
  {
    if i == |s| || s[i] == '|' then i else FirstBar(s, i + 1)
  }

  function LastBar(s: string): (k: int)
    ensures -1 <= k < |s|
    ensures k >= 0 ==> s[k] == '|'
    ensures forall j :: k < j < |s| ==> s[j] != '|'
  {
    if s == "" then -1
    else if s[|s| - 1] == '|' then |s| - 1
    else LastBar(s[..|s| - 1])
  }

  // ----- lookup

  function Find(cmds: seq<Command>, name: string): (r: Option<Command>)
    ensures r.Some? ==> r.value in cmds && SameName(r.value.name, name)
    ensures r.None? ==> forall c :: c in cmds ==> !SameName(c.name, name)
  {
    if cmds == [] then None
    else if SameName(cmds[0].name, name) then Some(cmds[0])
    else Find(cmds[1..], name)
  }

  /** ACLLookupCommand: one part names a command, two parts a subcommand, three or more nothing. */
  function Lookup(t: Table, name: string): Option<Command> {
    var k := FirstBar(name);
    if k == |name| then Find(t.commands, name)
    else if FirstBar(name, k + 1) < |name| then None
    else
      match Find(t.commands, name[..k])
      case None => None
      case Some(base) => if base.isContainer then Find(base.subs, name[k + 1..]) else None
  }

  function FindCategory(names: seq<string>, name: string): (r: Option<nat>)
    ensures r.Some? ==> r.value < |names| && SameName(names[r.value], name)
  {
    if names == [] then None
    else if SameName(names[|names| - 1], name) && FindCategory(names[..|names| - 1], name).None? then Some(|names| - 1)
    else FindCategory(names[..|names| - 1], name)
  }

  // ----- what a rule does

  /** ACLSetSelectorCommandBit. */
  function SetBit(s: Permissions, id: nat, value: bool): Permissions {
    if id >= BITS_COUNT then s
    else if value then s.(bits := s.bits + {id})
    else s.(bits := s.bits - {id}, allCommands := false)
  }

  function SetBits(s: Permissions, cmds: seq<Command>, value: bool): Permissions
    decreases |cmds|
  {
    if cmds == [] then s else SetBits(SetBit(s, cmds[0].id, value), cmds[1..], value)
  }

  /** ACLResetFirstArgsForCommand. */
  function ResetFirstArgs(s: Permissions, id: nat): Permissions {
    s.(firstArgs := s.firstArgs - {id})
  }

  /** ACLChangeSelectorPerm: a command together with its subcommands. */
  function ChangePerm(s: Permissions, c: Command, allow: bool): Permissions {
    SetBits(ResetFirstArgs(SetBit(s, c.id, allow), c.id), c.subs, allow)
  }

  /** ACLSetSelectorCommandBitsForCategoryLogic. */
  function ChangeCategory(s: Permissions, cmds: seq<Command>, category: nat, allow: bool): Permissions
    decreases cmds
  {
    if cmds == [] then s
    else
      var c := cmds[0];
      if c.isModule then ChangeCategory(s, cmds[1..], category, allow)
      else
        var s1 := if category in c.categories then ChangePerm(s, c, allow) else s;
        var s2 := ChangeCategory(s1, c.subs, category, allow);
        ChangeCategory(s2, cmds[1..], category, allow)
  }

  predicate Contains(args: seq<string>, arg: string) {
    exists i :: 0 <= i < |args| && SameName(args[i], arg)
  }

  /** ACLAddAllowedFirstArg. */
  function AddFirstArg(s: Permissions, id: nat, arg: string): Permissions {
    var args := if id in s.firstArgs then s.firstArgs[id] else [];
    if Contains(args, arg) then s else s.(firstArgs := s.firstArgs[id := args + [arg]])
  }

  const ALL_BITS: set<nat> := set i: nat | i < BITS_COUNT

  /** What a rule asks for, once its names are looked up. */
  datatype Rule =
    | Everything
    | Nothing
    | OfCategory(category: nat, allow: bool)
    | OfCommand(command: Command, allow: bool)
    | OfFirstArg(id: nat, arg: string)

  /** How ACLSetSelector reads a rule about commands. */
  function Parse(t: Table, op: string): Result<Rule> {
    if SameName(op, "allcommands") || SameName(op, "+@all") then Ok(Everything)
    else if SameName(op, "nocommands") || SameName(op, "-@all") then Ok(Nothing)
    else if |op| == 0 || (op[0] != '+' && op[0] != '-') then Err(Invalid)
    else if |op| > 1 && op[1] == '@' then
      match FindCategory(t.categories, op[2..])
      case None => Err(NoEntry)
      case Some(k) => Ok(OfCategory(k, op[0] == '+'))
    else if op[0] == '-' then
      match Lookup(t, op[1..])
      case None => Err(NoEntry)
      case Some(c) => Ok(OfCommand(c, false))
    else ParseAllow(t, op[1..])
  }

  // +name, +container|subcommand and +command|first-arg
  function ParseAllow(t: Table, name: string): Result<Rule> {
    var k := LastBar(name);
    if k < 0 then
      match Lookup(t, name)
      case None => Err(NoEntry)
      case Some(c) => Ok(OfCommand(c, true))
    else
      match Lookup(t, name[..k])
      case None => Err(NoEntry)
      case Some(c) =>
        if c.hasParent then Err(IsChild)
        else if name[k + 1..] == "" then Err(Invalid)
        else if c.isContainer then
          match Lookup(t, name)
          case None => Err(NoEntry)
          case Some(sub) => Ok(OfCommand(sub, true))
        else Ok(OfFirstArg(c.id, name[k + 1..]))
  }

  /** What ACLSetSelector does for a rule it has understood. */
  function Apply(t: Table, s: Permissions, rule: Rule): Permissions {
    match rule
    case Everything => Permissions(ALL_BITS, true, map[])
    case Nothing => Permissions({}, false, map[])
    case OfCategory(k, allow) => ChangeCategory(s, t.commands, k, allow)
    case OfCommand(c, allow) => ChangePerm(s, c, allow)
    case OfFirstArg(id, arg) => AddFirstArg(s, id, arg)
  }

  function ApplyAll(t: Table, s: Permissions, rules: seq<Rule>): Permissions {
    if rules == [] then s else Apply(t, ApplyAll(t, s, rules[..|rules| - 1]), rules[|rules| - 1])
  }

  /** A list of rules in text form, stopping at the first one that is refused. */
  function Replay(t: Table, s: Permissions, ops: seq<string>): Result<Permissions> {
    if ops == [] then Ok(s)
    else
      match Replay(t, s, ops[..|ops| - 1])
      case Err(e) => Err(e)
      case Ok(s') =>
        match Parse(t, ops[|ops| - 1])
        case Err(e) => Err(e)
        case Ok(rule) => Ok(Apply(t, s', rule))
  }

  // ----- what a selector permits

  /** The command part of ACLSelectorCheckCmd, for the command with this id called with arg as
      its first argument. */
  predicate Permits(s: Permissions, id: nat, arg: Option<string>) {
    || s.allCommands
    || id in s.bits
    || (arg.Some? && id in s.firstArgs && Contains(s.firstArgs[id], arg.value))
  }

  // ----- well-formed tables

  function Ids(cmds: seq<Command>): set<nat>
    decreases cmds
  {
    if cmds == [] then {}
    else {cmds[0].id} + Ids(cmds[0].subs) + Ids(cmds[1..])
  }

  predicate DistinctIds(cmds: seq<Command>)
    decreases cmds
  {
    cmds != [] ==>
      && cmds[0].id !in Ids(cmds[0].subs)
      && cmds[0].id !in Ids(cmds[1..])
      && Ids(cmds[0].subs) !! Ids(cmds[1..])
      && DistinctIds(cmds[0].subs)
      && DistinctIds(cmds[1..])
  }

  predicate PlainName(name: string) {
    && name != ""
    && name[0] != '@'
    && forall i :: 0 <= i < |name| ==> name[i] != '|'
  }

  predicate DistinctNames(cmds: seq<Command>) {
    forall i, j :: 0 <= i < j < |cmds| ==> !SameName(cmds[i].name, cmds[j].name)
  }

  // A subcommand of the command called parent.
  predicate ValidSub(sub: Command, parent: string) {
    && PlainName(sub.name) && sub.fullname == parent + "|" + sub.name
    && sub.hasParent && !sub.isContainer && sub.subs == []
  }

  predicate ValidTop(c: Command) {
    && PlainName(c.name) && c.fullname == c.name && !c.hasParent
    && (!c.isContainer ==> c.subs == [])
    && DistinctNames(c.subs)
    && (forall i :: 0 <= i < |c.subs| ==> ValidSub(c.subs[i], c.name))
  }

  /** What populating the command table guarantees: ids are distinct and leave the reserved bit
      alone, names are distinct in their dict, and subcommands go one level deep. */
  ghost predicate ValidTable(t: Table) {
    && DistinctIds(t.commands)
    && (forall id :: id in Ids(t.commands) ==> id < FUTURE_BIT)
    && DistinctNames(t.commands)
    && (forall i :: 0 <= i < |t.commands| ==> ValidTop(t.commands[i]))
    && (forall i, j :: 0 <= i < j < |t.categories| ==> !SameName(t.categories[i], t.categories[j]))
    && (forall i :: 0 <= i < |t.categories| ==> !SameName(t.categories[i], "all"))
  }
}
