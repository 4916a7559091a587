/** The command table the ACL engine works on: names, ids, categories and one level of subcommands. */
module AclCommands {
  import opened AclText

  /** Size of the command bitmap; its last bit is reserved for "future commands". */
  const USER_COMMAND_BITS_COUNT: nat := 1024
  const RESERVED_BIT: nat := USER_COMMAND_BITS_COUNT - 1

  datatype Sub = Sub(fullname: string, id: nat, categories: set<nat>)

  /** `subs` is keyed by the subcommand's own name; it is empty when the command has no subcommands_dict. */
  datatype Top = Top(fullname: string, id: nat, categories: set<nat>, subs: map<string, Sub>)

  /** `categories` maps a category name to its (nonzero) flag bit. */
  datatype Table = Table(commands: map<string, Top>, categories: map<string, nat>)

  datatype Command = TopCommand(top: Top) | SubCommand(parent: Top, sub: Sub) {
    function Id(): nat {
      match this case TopCommand(c) => c.id case SubCommand(_, s) => s.id
    }
    function FullName(): string {
      match this case TopCommand(c) => c.fullname case SubCommand(_, s) => s.fullname
    }
  }

  predicate ValidName(name: string) {
    name != "" && Lower(name) == name && '|' !in name && ' ' !in name && '\0' !in name
  }

  ghost predicate ValidTop(name: string, c: Top) {
    && ValidName(name) && c.fullname == name && c.id != RESERVED_BIT
    && (forall n :: n in c.subs ==>
          ValidName(n) && c.subs[n].fullname == name + "|" + n && c.subs[n].id != RESERVED_BIT)
  }

  ghost predicate ValidTable(t: Table) {
    && (forall n :: n in t.commands ==> ValidTop(n, t.commands[n]))
    && (forall n, m, k :: n in t.commands && m in t.commands && k in t.commands[m].subs ==>
          t.commands[n].id != t.commands[m].subs[k].id)
    && (forall n :: n in t.categories ==> ValidName(n))
  }

  /** ACLLookupCommand: "name" or "container|name", in any case; more than one '|' finds nothing. */
  function LookupCommand(t: Table, name: string): Option<Command> {
    var i := IndexOf(name, '|');
    var base := Lower(name[..i]);
    if base !in t.commands then None
    else if i == |name| then Some(TopCommand(t.commands[base]))
    else
      var rest := Lower(name[i + 1..]);
      if rest !in t.commands[base].subs || '|' in rest then None
      else Some(SubCommand(t.commands[base], t.commands[base].subs[rest]))
  }

  function SubIds(c: Top): set<nat> {
    set n | n in c.subs :: c.subs[n].id
  }

  /** The bits that allowing or blocking `c` overwrites: its own, and those of its subcommands. */
  function CommandBits(c: Command): set<nat> {
    match c
    case TopCommand(top) => {top.id} + SubIds(top)
    case SubCommand(_, sub) => {sub.id}
  }

  /** The bits that a category rule overwrites. A container's subcommands follow it even if they lack the category. */
  function CategoryBits(t: Table, flag: nat): set<nat> {
    (set n, id | n in t.commands && flag in t.commands[n].categories && id in CommandBits(TopCommand(t.commands[n])) :: id)
    + CategorySubIds(t, flag)
  }

  function CategorySubIds(t: Table, flag: nat): set<nat> {
    set n, m | n in t.commands && m in t.commands[n].subs && flag in t.commands[n].subs[m].categories
      :: t.commands[n].subs[m].id
  }

  /** The commands whose allowed first arguments a category rule flushes. */
  function CategoryResets(t: Table, flag: nat): set<nat> {
    (set n | n in t.commands && flag in t.commands[n].categories :: t.commands[n].id) + CategorySubIds(t, flag)
  }

  lemma LookupIgnoresCase(t: Table, name: string)
    ensures LookupCommand(t, Lower(name)) == LookupCommand(t, name)
  {
    var i := IndexOf(name, '|');
    IndexOfUnique(Lower(name), '|', i);
    LowerAt(name, i);
    LowerIdempotent(name[..i]);
    if i < |name| {
      LowerAt(name, i + 1);
      LowerIdempotent(name[i + 1..]);
    }
  }

  lemma LowerAtBar(name: string, i: nat)
    requires i < |name| && name[i] == '|'
    ensures Lower(name) == Lower(name[..i]) + "|" + Lower(name[i + 1..])
  {}

  /** A name that finds a command is its full name up to case. */
  lemma LookupName(t: Table, name: string, c: Command)
    requires ValidTable(t) && LookupCommand(t, name) == Some(c)
    ensures c.FullName() == Lower(name)
  {
    var i := IndexOf(name, '|');
    var base := Lower(name[..i]);
    assert ValidTop(base, t.commands[base]);
    if c.TopCommand? {
      assert name[..i] == name;
    } else {
      assert c.sub.fullname == base + "|" + Lower(name[i + 1..]);
      LowerAtBar(name, i);
    }
  }

  lemma LookupNeedsName(t: Table, name: string, c: Command)
    requires ValidTable(t) && LookupCommand(t, name) == Some(c)
    ensures name != "" && c.Id() != RESERVED_BIT
  {
    var base := Lower(name[..IndexOf(name, '|')]);
    assert ValidTop(base, t.commands[base]);
  }
}
