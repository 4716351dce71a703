/** The aclSelector of acl.c: a bitmap of machine words, the ALLCOMMANDS flag and the table of
    allowed first arguments, updated in place. */
module AclSelector {
  import opened Options
  import opened BitStrings
  import opened AclModel

  const WORDS := BITS_COUNT / 64

  // 1ULL << k
  function OneBit(k: nat): Word
    requires k < 64
  {
    seq(64, i => i == k)
  }

  class Selector {
    const words: array<Word>
    var allCommands: bool
    var firstArgs: map<nat, seq<string>>

    ghost predicate Valid()
      reads this
    {
      words.Length == WORDS
    }

    /** The permissions this selector stands for. */
    ghost function Perms(): Permissions
      requires Valid()
      reads this, words
    {
      Permissions((set id: nat | id < BITS_COUNT && words[id / 64][id % 64]), allCommands, firstArgs)
    }

    /** ACLCreateSelector, and the zeroed struct of ACLDescribeSelectorCommandRules. */
    constructor ()
      ensures Valid() && fresh(words) && Perms() == FRESH
    {
      words := new Word[WORDS](_ => Zeros(64));
      allCommands := false;
      firstArgs := map[];
    }

    /** ACLGetSelectorCommandBit: the coordinates are those of ACLGetCommandBitCoordinates. */
    method GetBit(id: nat) returns (set_: bool)
      requires Valid()
      ensures set_ <==> id in Perms().bits
    {
      if id >= BITS_COUNT {
        return false;
      }
      var word, bit := id / 64, id % 64;
      set_ := And(words[word], OneBit(bit)) != Zeros(64);
      assert words[word][bit] ==> And(words[word], OneBit(bit))[bit];
      assert !words[word][bit] ==> And(words[word], OneBit(bit)) == Zeros(64);
    }

    /** ACLSetSelectorCommandBit. */
    method SetBit(id: nat, value: bool)
      requires Valid()
      modifies this`allCommands, words
      ensures Perms() == AclModel.SetBit(old(Perms()), id, value)
    {
      if id >= BITS_COUNT {
        return;
      }
      var word, bit := id / 64, id % 64;
      if value {
        words[word] := Or(words[word], OneBit(bit));
      } else {
        words[word] := And(words[word], Not(OneBit(bit)));
        allCommands := false;
      }
      SplitsId(id);
    }

    /** ACLResetFirstArgsForCommand. */
    method ResetFirstArgsForCommand(id: nat)
      requires Valid()
      modifies this`firstArgs
      ensures Perms() == ResetFirstArgs(old(Perms()), id)
    {
      firstArgs := firstArgs - {id};
    }

    /** ACLChangeSelectorPerm. */
    method ChangePerm(c: Command, allow: bool)
      requires Valid()
      modifies this, words
      ensures Perms() == AclModel.ChangePerm(old(Perms()), c, allow)
    {
      SetBit(c.id, allow);
      ResetFirstArgsForCommand(c.id);
      ghost var goal := SetBits(Perms(), c.subs, allow);
      var i := 0;
      while i < |c.subs|
        invariant 0 <= i <= |c.subs|
        invariant goal == SetBits(Perms(), c.subs[i..], allow)
      {
        assert c.subs[i..][1..] == c.subs[i + 1..];
        SetBit(c.subs[i].id, allow);
        i := i + 1;
      }
    }

    /** ACLSetSelectorCommandBitsForCategoryLogic. */
    method ChangeCategory(cmds: seq<Command>, category: nat, allow: bool)
      requires Valid()
      modifies this, words
      ensures Perms() == AclModel.ChangeCategory(old(Perms()), cmds, category, allow)
      decreases cmds
    {
      ghost var goal := AclModel.ChangeCategory(Perms(), cmds, category, allow);
      var i := 0;
      while i < |cmds|
        invariant 0 <= i <= |cmds|
        invariant goal == AclModel.ChangeCategory(Perms(), cmds[i..], category, allow)
      {
        var c := cmds[i];
        assert cmds[i..][0] == c && cmds[i..][1..] == cmds[i + 1..];
        i := i + 1;
        if c.isModule {
          continue;
        }
        if category in c.categories {
          ChangePerm(c, allow);
        }
        ChangeCategory(c.subs, category, allow);
      }
    }

    /** ACLAddAllowedFirstArg. */
    method AddAllowedFirstArg(id: nat, arg: string)
      requires Valid()
      modifies this`firstArgs
      ensures Perms() == AddFirstArg(old(Perms()), id, arg)
    {
      var args := if id in firstArgs then firstArgs[id] else [];
      var items := 0;
      while items < |args|
        invariant 0 <= items <= |args|
        invariant forall j :: 0 <= j < items ==> !SameName(args[j], arg)
      {
        if SameName(args[items], arg) {
          return;
        }
        items := items + 1;
      }
      firstArgs := firstArgs[id := args + [arg]];
    }

    method SetAllBits(value: bool)
      requires Valid()
      modifies words
      ensures Perms().bits == if value then ALL_BITS else {}
    {
      for w := 0 to WORDS
        invariant forall v :: 0 <= v < w ==> forall k :: 0 <= k < 64 ==> words[v][k] == value
      {
        words[w] := seq(64, _ => value);
      }
    }

    /** The command branches of ACLSetSelector; a refused rule changes nothing. */
    method SetSelector(t: Table, op: string) returns (result: Result<()>)
      requires Valid()
      modifies this, words
      ensures match Parse(t, op)
        case Ok(rule) => result == Ok(()) && Perms() == Apply(t, old(Perms()), rule)
        case Err(e) => result == Err(e) && Perms() == old(Perms())
    {
      if SameName(op, "allcommands") || SameName(op, "+@all") {
        SetAllBits(true);
        allCommands := true;
        firstArgs := map[];
      } else if SameName(op, "nocommands") || SameName(op, "-@all") {
        SetAllBits(false);
        allCommands := false;
        firstArgs := map[];
      } else if |op| > 0 && op[0] == '+' && (|op| == 1 || op[1] != '@') {
        result := Allow(t, op[1..]);
        return;
      } else if |op| > 0 && op[0] == '-' && (|op| == 1 || op[1] != '@') {
        var c := Lookup(t, op[1..]);
        if c == None {
          return Err(NoEntry);
        }
        ChangePerm(c.value, false);
      } else if |op| > 1 && (op[0] == '+' || op[0] == '-') && op[1] == '@' {
        var k := FindCategory(t.categories, op[2..]);
        if k == None {
          return Err(NoEntry);
        }
        ChangeCategory(t.commands, k.value, op[0] == '+');
      } else {
        return Err(Invalid);
      }
      return Ok(());
    }

    // A rule that starts with + and names a command.
    method Allow(t: Table, name: string) returns (result: Result<()>)
      requires Valid()
      modifies this, words
      ensures match ParseAllow(t, name)
        case Ok(rule) => result == Ok(()) && Perms() == Apply(t, old(Perms()), rule)
        case Err(e) => result == Err(e) && Perms() == old(Perms())
    {
      var k := LastBar(name);
      if k < 0 {
        var c := Lookup(t, name);
        if c == None {
          return Err(NoEntry);
        }
        ChangePerm(c.value, true);
        return Ok(());
      }
      var c := Lookup(t, name[..k]);
      if c == None {
        return Err(NoEntry);
      } else if c.value.hasParent {
        return Err(IsChild);
      } else if name[k + 1..] == "" {
        return Err(Invalid);
      } else if c.value.isContainer {
        c := Lookup(t, name);
        if c == None {
          return Err(NoEntry);
        }
        ChangePerm(c.value, true);
      } else {
        AddAllowedFirstArg(c.value.id, name[k + 1..]);
      }
      return Ok(());
    }

    /** The command part of ACLSelectorCheckCmd for a command that needs authentication; args are
        what follows the command's name. */
    method CheckCmd(c: Command, args: seq<string>) returns (ok: bool)
      requires Valid()
      ensures ok <==> Permits(Perms(), c.id, if args == [] then None else Some(args[0]))
    {
      if !allCommands {
        var set_ := GetBit(c.id);
        if !set_ {
          if args == [] || c.id !in firstArgs {
            return false;
          }
          var subid := 0;
          while true
            invariant 0 <= subid <= |firstArgs[c.id]|
            invariant forall j :: 0 <= j < subid ==> !SameName(firstArgs[c.id][j], args[0])
            decreases |firstArgs[c.id]| - subid
          {
            if subid == |firstArgs[c.id]| {
              return false;
            }
            if SameName(args[0], firstArgs[c.id][subid]) {
              break;
            }
            subid := subid + 1;
          }
        }
      }
      return true;
    }
  }

  // An id is determined by its word and its bit.
  lemma SplitsId(id: nat)
    ensures forall other: nat :: other / 64 == id / 64 && other % 64 == id % 64 ==> other == id
  {
  }
}
