/**
 The selector as the heap object that ACLSetSelector edits: a bitmap, a table of first-args, pattern lists and
 the rule buffer. Every method is proved against the functions of AclSelector.dfy and AclStoredRules.dfy.
 */
module AclSelectorObject {
  import opened AclText
  import opened AclCommands
  import opened AclSelector
  import opened AclReplay
  import opened AclSplitArgs
  import opened AclRuleText
  import opened AclRuleBuffer
  import opened AclStoredRules

  class SelectorObject {
    var root: bool
    var allKeys: bool
    var allChannels: bool
    var allCommands: bool
    const allowed: array<bool>
    var firstArgs: map<nat, seq<string>>
    var patterns: seq<KeyPattern>
    var channels: seq<string>
    var commandRules: array<char>
    /** The C string in the rule buffer. */
    ghost var text: string

    ghost predicate Valid()
      reads this, allowed, commandRules
    {
      && allowed.Length == USER_COMMAND_BITS_COUNT
      && Holds(commandRules[..], text)
    }

    ghost function Bits(): set<nat>
      reads allowed
      requires allowed.Length == USER_COMMAND_BITS_COUNT
    {
      set id: nat | id < USER_COMMAND_BITS_COUNT && allowed[id]
    }

    /** The command side of the selector; its rules are in `text`. */
    ghost function Commands(): CommandPerms
      reads this, allowed
      requires allowed.Length == USER_COMMAND_BITS_COUNT
    {
      CommandPerms(allCommands, Bits(), firstArgs, [])
    }

    /** The value of the selector. */
    ghost function View(): Stored
      reads this, allowed
      requires allowed.Length == USER_COMMAND_BITS_COUNT
    {
      Stored(Selector(root, allKeys, patterns, allChannels, channels, Commands()), text)
    }

    /** ACLCreateSelector */
    constructor (root: bool, pubsubDefault: bool)
      ensures Valid() && fresh(allowed) && fresh(commandRules)
      ensures View() == Stored(NewSelector(root, pubsubDefault), "")
    {
      this.root, allKeys, allChannels, allCommands := root, false, pubsubDefault, false;
      allowed := new bool[USER_COMMAND_BITS_COUNT](i => false);
      firstArgs, patterns, channels := map[], [], [];
      commandRules := new char[1](i => '\0');
      text := "";
    }

    /** ACLSetSelectorCommandBit: ids that overflow the bitmap are ignored. */
    method SetCommandBit(id: nat, value: bool)
      requires allowed.Length == USER_COMMAND_BITS_COUNT
      modifies this`allCommands, allowed
      ensures Bits() == if value then old(Bits()) + InBitmap({id}) else old(Bits()) - InBitmap({id})
      ensures allCommands == (old(allCommands) && (value || InBitmap({id}) == {}))
    {
      if id >= USER_COMMAND_BITS_COUNT {
        return;
      }
      allowed[id] := value;
      if !value {
        allCommands := false;
      }
      assert id in InBitmap({id});
    }

    /** The loop of ACLChangeSelectorPerm over the subcommands. */
    method SetSubBits(top: Top, allow: bool)
      requires allowed.Length == USER_COMMAND_BITS_COUNT
      modifies this`allCommands, allowed
      ensures Bits() == if allow then old(Bits()) + InBitmap(SubIdsOf(top, top.subs.Keys))
                        else old(Bits()) - InBitmap(SubIdsOf(top, top.subs.Keys))
      ensures allCommands == (old(allCommands) && (allow || InBitmap(SubIdsOf(top, top.subs.Keys)) == {}))
    {
      hide InBitmap, SubIdsOf;
      var todo := top.subs.Keys;
      NoSubIds(top);
      assert top.subs.Keys - todo == {};
      while todo != {}
        invariant todo <= top.subs.Keys
        invariant Bits() == if allow then old(Bits()) + InBitmap(SubIdsOf(top, top.subs.Keys - todo))
                            else old(Bits()) - InBitmap(SubIdsOf(top, top.subs.Keys - todo))
        invariant allCommands == (old(allCommands) && (allow || InBitmap(SubIdsOf(top, top.subs.Keys - todo)) == {}))
        decreases todo
      {
        var n :| n in todo;
        SetCommandBit(top.subs[n].id, allow);
        OneMoreSubId(top, top.subs.Keys - todo, n);
        InBitmapUnion(SubIdsOf(top, top.subs.Keys - todo), {top.subs[n].id});
        assert top.subs.Keys - (todo - {n}) == top.subs.Keys - todo + {n};
        todo := todo - {n};
      }
      assert top.subs.Keys - todo == top.subs.Keys;
    }

    /** ACLChangeSelectorPerm */
    method ChangePerm(c: Command, allow: bool)
      requires allowed.Length == USER_COMMAND_BITS_COUNT
      modifies this`allCommands, this`firstArgs, allowed
      ensures Commands() == ApplyEffect(old(Commands()), CommandEffect(c, allow))
    {
      hide InBitmap, SubIdsOf, CommandEffect, ApplyEffect;
      var id := c.Id();
      ghost var subs := if c.TopCommand? then SubIdsOf(c.top, c.top.subs.Keys) else {};
      InBitmapUnion({id}, subs);
      BitsOfCommand(c);
      SetCommandBit(id, allow);
      firstArgs := map k | k in firstArgs && k != id :: firstArgs[k];
      if c.TopCommand? {
        SetSubBits(c.top, allow);
      }
      CommandChanged(old(Commands()), Commands(), c, allow);
    }

    /** The second half of ACLSetSelectorCommandBitsForCategory: the subcommands of one command. */
    method SetSubcommandBits(top: Top, flag: nat, value: bool)
      requires allowed.Length == USER_COMMAND_BITS_COUNT
      modifies this`allCommands, this`firstArgs, allowed
      ensures Commands() == ApplyEffect(old(Commands()), IdsEffect(SubIdsIn(top, top.subs.Keys, flag), value))
    {
      var todo := top.subs.Keys;
      NoEffect(Commands(), value);
      while todo != {}
        invariant todo <= top.subs.Keys
        invariant Commands() == ApplyEffect(old(Commands()), IdsEffect(SubIdsIn(top, top.subs.Keys - todo, flag), value))
        decreases todo
      {
        var n :| n in todo;
        var sub := top.subs[n];
        ghost var done := SubIdsIn(top, top.subs.Keys - todo, flag);
        if flag in sub.categories {
          ChangePerm(SubCommand(top, sub), value);
          IdsEffectUnion(old(Commands()), done, {sub.id}, value);
        }
        todo := todo - {n};
        assert SubIdsIn(top, top.subs.Keys - todo, flag) == done + if flag in sub.categories then {sub.id} else {};
      }
      assert top.subs.Keys - todo == top.subs.Keys;
    }

    /** ACLSetSelectorCommandBitsForCategory */
    method SetCategoryBits(t: Table, flag: nat, value: bool)
      requires allowed.Length == USER_COMMAND_BITS_COUNT
      modifies this`allCommands, this`firstArgs, allowed
      ensures Commands() == ApplyEffect(old(Commands()), CategoryEffect(t, flag, value))
    {
      var todo := t.commands.Keys;
      NoCommandsLeft(t, flag, value);
      NoEffect(Commands(), value);
      while todo != {}
        invariant todo <= t.commands.Keys
        invariant Commands() == ApplyEffect(old(Commands()), CategoryEffect(Part(t, t.commands.Keys - todo), flag, value))
        decreases todo
      {
        var n :| n in todo;
        var cmd := t.commands[n];
        ghost var before, done := Commands(), t.commands.Keys - todo;
        if flag in cmd.categories {
          ChangePerm(TopCommand(cmd), value);
        } else {
          NoEffect(before, value);
        }
        SetSubcommandBits(cmd, flag, value);
        todo := todo - {n};
        OneMoreCommand(t, done, n, flag, value, old(Commands()));
        assert t.commands.Keys - todo == done + {n};
      }
      assert t.commands.Keys - todo == t.commands.Keys;
      assert Part(t, t.commands.Keys) == t;
    }

    /** The memset of +@all and -@all. */
    method SetAllBits(value: bool)
      requires allowed.Length == USER_COMMAND_BITS_COUNT
      modifies allowed
      ensures Bits() == if value then ALL_BITS else {}
    {
      for i := 0 to USER_COMMAND_BITS_COUNT
        invariant forall j :: 0 <= j < i ==> allowed[j] == value
      {
        allowed[i] := value;
      }
    }

    /** ACLAddAllowedFirstArg */
    method AddAllowedFirstArg(id: nat, sub: string)
      modifies this`firstArgs
      ensures firstArgs == AddFirstArg(old(firstArgs), id, sub)
    {
      var have := if id in firstArgs then firstArgs[id] else [];
      var items := 0;
      while items < |have|
        invariant items <= |have| && firstArgs == old(firstArgs)
        invariant forall i :: 0 <= i < items ==> !EqNoCase(have[i], sub)
      {
        if EqNoCase(have[items], sub) {
          return;
        }
        items := items + 1;
      }
      firstArgs := firstArgs[id := have + [sub]];
    }

    /** ACLUpdateCommandRules */
    method UpdateCommandRules(name: string, allow: bool)
      requires Valid() && '\0' !in Lower(name)
      modifies this`commandRules, this`text, commandRules
      ensures Valid() && fresh(commandRules)
      ensures text == UpdateText(old(text), Rule(allow, Lower(name)))
    {
      hide TextWithout, Lower;
      var low, rule := Lower(name), Rule(allow, Lower(name));
      ghost var before := text;
      RemoveCommandRule(commandRules, low, text);
      UpdateHasNoNul(before, rule);
      var len := Length(commandRules, TextWithout(before, low));
      var kept := commandRules[..len];
      text := (if len > 0 then kept + " " else "") + rule.Text();
      commandRules := NewBuffer((if len > 0 then kept + " " else "") + rule.Text());
    }

    /** sdsclear */
    method ClearRules()
      modifies this`commandRules, this`text
      ensures fresh(commandRules) && text == "" && Holds(commandRules[..], text)
    {
      text := "";
      commandRules := new char[1](i => '\0');
    }

    /** The command branches of ACLSetSelector; `word` is a C string. */
    method SetCommand(t: Table, word: string) returns (e: Option<Error>)
      requires Valid() && ValidTable(t) && IsCommandOp(word) && '\0' !in word
      modifies this`allCommands, this`firstArgs, this`commandRules, this`text, allowed, commandRules
      ensures Valid() && (commandRules == old(commandRules) || fresh(commandRules))
      ensures match SetCommands(t, old(Commands()), word)
              case Err(x) => e == Some(x) && Commands() == old(Commands()) && text == old(text)
              case Ok(p) => e == None && Commands() == p.(rules := []) && text == NewText(old(text), p.rules, word)
    {
      hide UpdateText, ApplyEffect, DropSuperseded;
      if EqNoCase(word, "allcommands") || EqNoCase(word, "+@all") {
        SetAllBits(true);
        allCommands := true;
        ClearRules();
        firstArgs := map[];
        return None;
      }
      if EqNoCase(word, "nocommands") || EqNoCase(word, "-@all") {
        SetAllBits(false);
        allCommands := false;
        ClearRules();
        firstArgs := map[];
        return None;
      }
      NothingDropped();
      e := SetRule(t, word);
    }

    method SetRule(t: Table, word: string) returns (e: Option<Error>)
      requires Valid() && ValidTable(t) && |word| > 0 && (word[0] == '+' || word[0] == '-') && '\0' !in word
      modifies this`allCommands, this`firstArgs, this`commandRules, this`text, allowed, commandRules
      ensures Valid() && (commandRules == old(commandRules) || fresh(commandRules))
      ensures match ParseRule(t, word)
              case Err(x) => e == Some(x) && Commands() == old(Commands()) && text == old(text)
              case Ok(c) => e == None && Commands() == ApplyEffect(old(Commands()), c.effect)
                            && text == UpdateText(old(text), c.rule)
    {
      hide UpdateText, ApplyEffect;
      var allow, body := word[0] == '+', word[1..];
      if |body| > 0 && body[0] == '@' {
        e := SetCategoryRule(t, allow, body);
      } else if allow && '|' in body {
        e := SetBarRule(t, body);
      } else {
        var cmd := LookupCommand(t, body);
        if cmd.None? {
          return Some(ENOENT);
        }
        FullNameHasNoNul(t, body, cmd.value);
        ChangePerm(cmd.value, allow);
        UpdateCommandRules(cmd.value.FullName(), allow);
        return None;
      }
    }

    /** ACLSetSelectorCategory */
    method SetCategoryRule(t: Table, allow: bool, body: string) returns (e: Option<Error>)
      requires Valid() && ValidTable(t) && |body| > 0 && body[0] == '@' && '\0' !in body
      modifies this`allCommands, this`firstArgs, this`commandRules, this`text, allowed, commandRules
      ensures Valid() && (commandRules == old(commandRules) || fresh(commandRules))
      ensures match ParseCategoryRule(t, allow, body)
              case Err(x) => e == Some(x) && Commands() == old(Commands()) && text == old(text)
              case Ok(c) => e == None && Commands() == ApplyEffect(old(Commands()), c.effect)
                            && text == UpdateText(old(text), c.rule)
    {
      hide UpdateText, CategoryBits, CategoryResets;
      var category := Lower(body[1..]);
      if category !in t.categories {
        return Some(ENOENT);
      }
      LowerKeeps(body, '\0');
      UpdateCommandRules(body, allow);
      SetCategoryBits(t, t.categories[category], allow);
      return None;
    }

    /** "+command|first-arg" and "+container|subcommand". */
    method SetBarRule(t: Table, body: string) returns (e: Option<Error>)
      requires Valid() && '|' in body && '\0' !in body
      modifies this`allCommands, this`firstArgs, this`commandRules, this`text, allowed, commandRules
      ensures Valid() && (commandRules == old(commandRules) || fresh(commandRules))
      ensures match ParseBarRule(t, body)
              case Err(x) => e == Some(x) && Commands() == old(Commands()) && text == old(text)
              case Ok(c) => e == None && Commands() == ApplyEffect(old(Commands()), c.effect)
                            && text == UpdateText(old(text), c.rule)
    {
      hide UpdateText, LookupCommand;
      var k := LastIndexOf(body, '|');
      var base, sub := LookupCommand(t, body[..k]), body[k + 1..];
      if base.None? {
        return Some(ENOENT);
      }
      if base.value.SubCommand? {
        return Some(ECHILD);
      }
      if sub == "" {
        return Some(EINVAL);
      }
      if base.value.top.subs != map[] {
        var whole := LookupCommand(t, body);
        if whole.None? {
          return Some(ENOENT);
        }
        ChangePerm(whole.value, true);
      } else {
        NoEffect(Commands(), true);
        AddAllowedFirstArg(base.value.top.id, sub);
      }
      LowerKeeps(body, '\0');
      UpdateCommandRules(body, true);
      return None;
    }

    /** The '~' and '%' branch of ACLSetSelector. */
    method SetKeyPattern(op: string) returns (e: Option<Error>)
      requires |op| > 0
      modifies this`patterns
      ensures if allKeys then e == Some(EEXIST) && patterns == old(patterns)
              else match ParseKeyPattern(op)
                   case Err(x) => e == Some(x) && patterns == old(patterns)
                   case Ok(p) => e == None && patterns == AddKeyPattern(old(patterns), p)
    {
      if allKeys {
        return Some(EEXIST);
      }
      var read, write, offset, permOk := true, true, 1, true;
      if op[0] == '%' {
        read, write := false, false;
        while offset < |op|
          invariant 1 <= offset <= |op| && permOk
          invariant ParsePermissions(op, 1, false, false) == ParsePermissions(op, offset, read, write)
        {
          if UpperIs(op[offset], 'R') && !read {
            read := true;
          } else if UpperIs(op[offset], 'W') && !write {
            write := true;
          } else if op[offset] == '~' {
            offset := offset + 1;
            break;
          } else {
            permOk := false;
            break;
          }
          offset := offset + 1;
        }
        if (!read && !write) || !permOk {
          return Some(EINVAL);
        }
      }
      if HasSpaces(op[offset..]) {
        return Some(EINVAL);
      }
      var p := KeyPattern(op[offset..], read, write);
      var j := 0;
      while j < |patterns| && patterns[j].pattern != p.pattern
        invariant j <= |patterns| && forall i :: 0 <= i < j ==> patterns[i].pattern != p.pattern
      {
        j := j + 1;
      }
      AddedAt(patterns, p, j);
      if j == |patterns| {
        patterns := patterns + [p];
      } else {
        patterns := patterns[j := KeyPattern(p.pattern, patterns[j].read || read, patterns[j].write || write)];
      }
      return None;
    }

    /** ACLSetSelector. Words are compared up to a NUL; only key and channel patterns are taken in full. */
    method SetSelector(t: Table, op: string) returns (e: Option<Error>)
      requires Valid() && ValidTable(t)
      modifies this, allowed, commandRules
      ensures Valid() && (commandRules == old(commandRules) || fresh(commandRules))
      ensures match SetStored(t, old(View()), op)
              case Err(x) => e == Some(x) && View() == old(View())
              case Ok(x) => e == None && View() == x
    {
      hide SetCommands, ParseKeyPattern, AddKeyPattern, HasSpaces, UpdateText, CString, EqNoCase, IsCommandOp, IsAlias;
      var word := CString(op);
      WordsAreApart(word);
      assert WithoutList(View().selector) == View().selector;
      if EqNoCase(word, "allkeys") || EqNoCase(word, "~*") {
        allKeys, patterns := true, [];
      } else if EqNoCase(word, "resetkeys") {
        allKeys, patterns := false, [];
      } else if EqNoCase(word, "allchannels") || EqNoCase(word, "&*") {
        allChannels, channels := true, [];
      } else if EqNoCase(word, "resetchannels") {
        allChannels, channels := false, [];
      } else if IsCommandOp(word) {
        e := SetCommand(t, word);
        return;
      } else if |op| > 0 && (op[0] == '~' || op[0] == '%') {
        e := SetKeyPattern(op);
        return;
      } else if |op| > 0 && op[0] == '&' {
        if allChannels {
          return Some(EISDIR);
        }
        if HasSpaces(op[1..]) {
          return Some(EINVAL);
        }
        if op[1..] !in channels {
          channels := channels + [op[1..]];
        }
      } else {
        return Some(EINVAL);
      }
      return None;
    }

    /** The fake selector of the sanity check; `failed` when the text does not split, or a word of it is refused. */
    method BuildFake(t: Table, pubsubDefault: bool) returns (fake: SelectorObject, failed: bool)
      requires Valid() && ValidTable(t)
      ensures fake.Valid() && fresh(fake) && fresh(fake.allowed)
      ensures failed <==> Replayed(t, pubsubDefault, View()).None?
      ensures !failed ==> fake.View() == Replayed(t, pubsubDefault, View()).value
    {
      hide SetStored, WithNul, SplitArgs, Base;
      var future := allowed[RESERVED_BIT];
      fake := new SelectorObject(false, pubsubDefault);
      NewIsStored(pubsubDefault);
      BaseWord(t, NewSelector(false, pubsubDefault), future);
      FakeIsStored(pubsubDefault, future);
      var e := fake.SetSelector(t, if future then "+@all" else "-@all");
      ghost var start := fake.View();
      var len := Length(commandRules, text);
      var argv := SplitLine(commandRules[..len]);
      if argv.None? {
        return fake, true;
      }
      var i := 0;
      while i < |argv.value|
        invariant fake.Valid() && fresh(fake) && fresh(fake.allowed) && fresh(fake.commandRules)
        invariant i <= |argv.value|
        invariant ReplayWords(t, fake.View(), argv.value[i..]) == ReplayWords(t, start, argv.value)
      {
        assert argv.value[i..][1..] == argv.value[i + 1..];
        e := fake.SetSelector(t, WithNul(argv.value[i]));
        if e.Some? {
          return fake, true;
        }
        i := i + 1;
      }
      failed := false;
    }

    /** memcmp of the two bitmaps. */
    method SameBits(other: SelectorObject) returns (same: bool)
      requires allowed.Length == USER_COMMAND_BITS_COUNT && other.allowed.Length == USER_COMMAND_BITS_COUNT
      ensures same <==> Bits() == other.Bits()
    {
      for j := 0 to USER_COMMAND_BITS_COUNT
        invariant forall k :: 0 <= k < j ==> allowed[k] == other.allowed[k]
      {
        if allowed[j] != other.allowed[j] {
          assert j in Bits() <==> j !in other.Bits();
          return false;
        }
      }
      return true;
    }

    /**
     ACLDescribeSelectorCommandRules: builds a fake selector from the retained rules and compares the bitmaps. It
     panics exactly if the text of the rules does not pass that check.
     */
    method DescribeCommandRules(t: Table, pubsubDefault: bool) returns (described: string, panic: bool)
      requires Valid() && ValidTable(t)
      ensures panic <==> !Sane(t, pubsubDefault, View())
      ensures !panic ==> described == DescribeText(View())
    {
      hide SetStored, SplitArgs, ReplayWords, Replayed, DescribeText;
      SaneIs(t, pubsubDefault, View());
      DescribeIs(View());
      var fake, failed := BuildFake(t, pubsubDefault);
      if failed {
        return "", true;
      }
      var same := SameBits(fake);
      if !same {
        return "", true;
      }
      var len := Length(commandRules, text);
      var kept := commandRules[..len];
      described := (if allowed[RESERVED_BIT] then "+@all " else "-@all ") + (if kept != "" then kept + " " else "");
      described := described[..|described| - 1];
      panic := false;
    }
  }

  /** What the fake selector comes to; None when the text does not split or a word is refused. */
  function Replayed(t: Table, pubsubDefault: bool, x: Stored): Option<Stored> {
    match SplitArgs(x.text)
    case None => None
    case Some(argv) =>
      match ReplayWords(t, FakeSelector(pubsubDefault, RESERVED_BIT in x.selector.commands.bits), argv)
      case Err(_) => None
      case Ok(y) => Some(y)
  }

  lemma SaneIs(t: Table, pubsubDefault: bool, x: Stored)
    ensures Sane(t, pubsubDefault, x) <==>
            Replayed(t, pubsubDefault, x).Some?
            && Replayed(t, pubsubDefault, x).value.selector.commands.bits == x.selector.commands.bits
  {
    hide ReplayWords, SplitArgs;
  }

  lemma NewIsStored(pubsubDefault: bool)
    ensures StoredOf(NewSelector(false, pubsubDefault)) == Stored(NewSelector(false, pubsubDefault), "")
  {
    NoRules();
  }

  lemma FakeIsStored(pubsubDefault: bool, all: bool)
    ensures StoredOf(NewSelector(false, pubsubDefault).(commands := Base(all))) == FakeSelector(pubsubDefault, all)
  {
    NoRules();
    BaseHasNoRules(all);
  }

  lemma NothingDropped()
    ensures forall added: string :: DropSuperseded([], added) == []
  {}

  function PlainEffect(bits: set<nat>, resets: set<nat>, allow: bool): Effect {
    Effect(allow, bits, resets, None)
  }

  function IdsEffect(ids: set<nat>, allow: bool): Effect {
    PlainEffect(InBitmap(ids), ids, allow)
  }

  function CategoryEffect(t: Table, flag: nat, allow: bool): Effect {
    PlainEffect(InBitmap(CategoryBits(t, flag)), CategoryResets(t, flag), allow)
  }

  function SubIdsIn(top: Top, names: set<string>, flag: nat): set<nat> {
    set n | n in names && n in top.subs && flag in top.subs[n].categories :: top.subs[n].id
  }

  function SubIdsOf(top: Top, names: set<string>): set<nat> {
    set n | n in names && n in top.subs :: top.subs[n].id
  }

  lemma NoSubIds(top: Top)
    ensures SubIdsOf(top, {}) == {} && InBitmap({}) == {}
  {}

  lemma BitsOfCommand(c: Command)
    ensures InBitmap(CommandBits(c)) == InBitmap({c.Id()} + if c.TopCommand? then SubIdsOf(c.top, c.top.subs.Keys) else {})
    ensures InBitmap({}) == {}
  {}

  /** The effect of a command, field by field. */
  lemma CommandChanged(p: CommandPerms, q: CommandPerms, c: Command, allow: bool)
    requires var bits := InBitmap(CommandBits(c));
             && q.bits == (if allow then p.bits + bits else p.bits - bits)
             && q.allCommands == (p.allCommands && (allow || bits == {}))
    requires q.firstArgs == (map k | k in p.firstArgs && k != c.Id() :: p.firstArgs[k]) && q.rules == p.rules
    ensures q == ApplyEffect(p, CommandEffect(c, allow))
  {
    hide InBitmap, CommandBits;
    assert q.firstArgs == ApplyEffect(p, CommandEffect(c, allow)).firstArgs;
  }

  lemma OneMoreSubId(top: Top, names: set<string>, n: string)
    requires n in top.subs
    ensures SubIdsOf(top, names + {n}) == SubIdsOf(top, names) + {top.subs[n].id}
  {}

  function Part(t: Table, names: set<string>): Table {
    t.(commands := map n | n in t.commands && n in names :: t.commands[n])
  }

  /** Two overwrites of the same kind are one. */
  lemma EffectUnion(p: CommandPerms, e: Effect, f: Effect)
    requires e.allow == f.allow && e.add.None? && f.add.None?
    ensures ApplyEffect(ApplyEffect(p, e), f) == ApplyEffect(p, PlainEffect(e.bits + f.bits, e.resets + f.resets, e.allow))
  {
    var q := ApplyEffect(ApplyEffect(p, e), f);
    var r := ApplyEffect(p, PlainEffect(e.bits + f.bits, e.resets + f.resets, e.allow));
    assert q.bits == r.bits;
    assert q.firstArgs == r.firstArgs;
  }

  lemma IdsEffectUnion(p: CommandPerms, a: set<nat>, b: set<nat>, allow: bool)
    ensures ApplyEffect(ApplyEffect(p, IdsEffect(a, allow)), IdsEffect(b, allow)) == ApplyEffect(p, IdsEffect(a + b, allow))
  {
    EffectUnion(p, IdsEffect(a, allow), IdsEffect(b, allow));
    InBitmapUnion(a, b);
  }

  lemma NoEffect(p: CommandPerms, allow: bool)
    ensures ApplyEffect(p, PlainEffect({}, {}, allow)) == p
  {
    assert (map id | id in p.firstArgs && id !in {} :: p.firstArgs[id]) == p.firstArgs;
  }

  lemma NoCommandsLeft(t: Table, flag: nat, allow: bool)
    ensures CategoryEffect(Part(t, t.commands.Keys - t.commands.Keys), flag, allow) == PlainEffect({}, {}, allow)
  {}

  lemma PartHas(t: Table, done: set<string>, n: string)
    requires n in t.commands && n !in done
    ensures var part, more := Part(t, done), Part(t, done + {n});
            && (forall k :: k in more.commands <==> k in part.commands || k == n)
            && (forall k :: k in part.commands ==> part.commands[k] == more.commands[k])
            && n !in part.commands && more.commands[n] == t.commands[n]
  {}

  lemma PartSubIds(t: Table, done: set<string>, n: string, flag: nat)
    requires n in t.commands && n !in done
    ensures CategorySubIds(Part(t, done + {n}), flag) ==
            CategorySubIds(Part(t, done), flag) + SubIdsIn(t.commands[n], t.commands[n].subs.Keys, flag)
  {
    hide Part;
    PartHas(t, done, n);
  }

  lemma PartBits(t: Table, done: set<string>, n: string, flag: nat)
    requires n in t.commands && n !in done
    ensures var cmd := t.commands[n];
            CategoryBits(Part(t, done + {n}), flag) == CategoryBits(Part(t, done), flag)
              + (if flag in cmd.categories then CommandBits(TopCommand(cmd)) else {})
              + SubIdsIn(cmd, cmd.subs.Keys, flag)
  {
    hide Part, CategorySubIds, SubIdsIn, CommandBits;
    PartHas(t, done, n);
    PartSubIds(t, done, n, flag);
  }

  lemma PartResets(t: Table, done: set<string>, n: string, flag: nat)
    requires n in t.commands && n !in done
    ensures var cmd := t.commands[n];
            CategoryResets(Part(t, done + {n}), flag) == CategoryResets(Part(t, done), flag)
              + (if flag in cmd.categories then {cmd.id} else {}) + SubIdsIn(cmd, cmd.subs.Keys, flag)
  {
    hide Part, CategorySubIds, SubIdsIn;
    PartHas(t, done, n);
    PartSubIds(t, done, n, flag);
  }

  lemma OneMoreCommand(t: Table, done: set<string>, n: string, flag: nat, allow: bool, p: CommandPerms)
    requires n in t.commands && n !in done
    ensures var cmd := t.commands[n];
            var q := ApplyEffect(p, CategoryEffect(Part(t, done), flag, allow));
            var r := if flag in cmd.categories then ApplyEffect(q, CommandEffect(TopCommand(cmd), allow)) else q;
            var last := ApplyEffect(r, IdsEffect(SubIdsIn(cmd, cmd.subs.Keys, flag), allow));
            last == ApplyEffect(p, CategoryEffect(Part(t, done + {n}), flag, allow))
  {
    hide ApplyEffect, CategoryBits, CategoryResets, CommandBits;
    var cmd, e := t.commands[n], CategoryEffect(Part(t, done), flag, allow);
    var f := if flag in cmd.categories then CommandEffect(TopCommand(cmd), allow) else PlainEffect({}, {}, allow);
    var g := IdsEffect(SubIdsIn(cmd, cmd.subs.Keys, flag), allow);
    var bits, extra := CategoryBits(Part(t, done), flag), if flag in cmd.categories then CommandBits(TopCommand(cmd)) else {};
    NoEffect(ApplyEffect(p, e), allow);
    EffectUnion(p, e, f);
    EffectUnion(p, PlainEffect(e.bits + f.bits, e.resets + f.resets, allow), g);
    PartBits(t, done, n, flag);
    PartResets(t, done, n, flag);
    InBitmapUnion(bits, extra);
    InBitmapUnion(bits + extra, SubIdsIn(cmd, cmd.subs.Keys, flag));
    assert f.bits == InBitmap(extra);
    assert CategoryEffect(Part(t, done + {n}), flag, allow)
        == PlainEffect(e.bits + f.bits + g.bits, e.resets + f.resets + g.resets, allow);
  }

  lemma InBitmapUnion(a: set<nat>, b: set<nat>)
    ensures InBitmap(a + b) == InBitmap(a) + InBitmap(b)
  {}

  /** strlen */
  method Length(buf: array<char>, ghost s: string) returns (n: nat)
    requires Holds(buf[..], s)
    ensures n == |s|
  {
    n := 0;
    HeldChar(buf[..], s, 0);
    while buf[n] != '\0'
      invariant n <= |s| < buf.Length
      decreases |s| - n
    {
      HeldChar(buf[..], s, n);
      n := n + 1;
    }
    HeldChar(buf[..], s, n);
  }

  lemma FullNameHasNoNul(t: Table, name: string, c: Command)
    requires ValidTable(t) && LookupCommand(t, name) == Some(c) && '\0' !in name
    ensures '\0' !in Lower(c.FullName())
  {
    hide ValidTable, LookupCommand;
    LookupName(t, name, c);
    LowerKeeps(name, '\0');
    LowerIdempotent(name);
  }

  /** A fresh buffer that holds `text`. */
  method NewBuffer(text: string) returns (buf: array<char>)
    requires '\0' !in text
    ensures fresh(buf) && Holds(buf[..], text)
  {
    buf := new char[|text| + 1](i requires 0 <= i => if i < |text| then text[i] else '\0');
    assert buf[..|text|] == text;
  }

  lemma {:induction false} AddedAt(patterns: seq<KeyPattern>, p: KeyPattern, j: nat)
    requires j <= |patterns| && (forall i :: 0 <= i < j ==> patterns[i].pattern != p.pattern)
    requires j < |patterns| ==> patterns[j].pattern == p.pattern
    ensures AddKeyPattern(patterns, p) ==
            if j == |patterns| then patterns + [p]
            else patterns[j := KeyPattern(p.pattern, patterns[j].read || p.read, patterns[j].write || p.write)]
  {
    if j > 0 {
      AddedAt(patterns[1..], p, j - 1);
    }
  }
}
