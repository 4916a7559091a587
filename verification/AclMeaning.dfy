/**
 What the words of ACLSetSelector do to the bitmap, the first-args, the patterns and the channels, said over the command
 table alone, and what that means for the check of a command.
 */
module AclMeaning {
  import opened AclText
  import opened AclCommands
  import opened AclSelector
  import opened AclReplay
  import opened AclUserInvariant
  import opened AclUser
  import opened AclRoundTrip
  import opened AclStoredRules
  import opened AclCheck

  /** The command with this id, the command of which it is a subcommand, or the subcommand itself has the category. */
  ghost predicate Carries(t: Table, flag: nat, id: nat) {
    || (exists n :: n in t.commands && t.commands[n].id == id && flag in t.commands[n].categories)
    || (exists n, m :: n in t.commands && m in t.commands[n].subs && t.commands[n].subs[m].id == id
          && (flag in t.commands[n].categories || flag in t.commands[n].subs[m].categories))
  }

  lemma CarriesIsBits(t: Table, flag: nat, id: nat)
    ensures id in CategoryBits(t, flag) <==> Carries(t, flag, id)
  {
    if id in CategoryBits(t, flag) {
      if id !in CategorySubIds(t, flag) {
        var n :| n in t.commands && flag in t.commands[n].categories && id in CommandBits(TopCommand(t.commands[n]));
        if id != t.commands[n].id {
          var m :| m in t.commands[n].subs && t.commands[n].subs[m].id == id;
        }
      }
    }
    if Carries(t, flag, id) {
      if n :| n in t.commands && t.commands[n].id == id && flag in t.commands[n].categories {
        assert id in CommandBits(TopCommand(t.commands[n]));
      } else {
        var n, m :| n in t.commands && m in t.commands[n].subs && t.commands[n].subs[m].id == id
                    && (flag in t.commands[n].categories || flag in t.commands[n].subs[m].categories);
        if flag in t.commands[n].categories {
          assert id in SubIds(t.commands[n]);
          assert id in CommandBits(TopCommand(t.commands[n]));
        }
      }
    }
  }

  /** A word that is a sign and a name. */
  predicate Signed(op: string) {
    op != "" && (op[0] == '+' || op[0] == '-') && '\0' !in op
  }

  /** Nothing but the command side of the selector changes. */
  predicate OnlyCommands(s: Selector, s': Selector) {
    && s'.root == s.root && s'.allKeys == s.allKeys && s'.patterns == s.patterns
    && s'.allChannels == s.allChannels && s'.channels == s.channels
  }

  lemma SignedWord(t: Table, s: Selector, op: string)
    requires Signed(op)
    ensures IsCommandOp(op)
    ensures SetSelector(t, s, op) ==
            match SetCommands(t, s.commands, op)
            case Err(e) => Err(e)
            case Ok(p) => Ok(s.(commands := p))
  {
    hide SetSelectorWord, SetCommands, EqNoCase;
    PlainWordOfSelector(t, s, op);
    CommandWord(t, s, op, op);
  }

  lemma NotAll(op: string)
    requires Signed(op) && |op| > 1 && (op[1] == '@' ==> Lower(op[2..]) != "all")
    ensures !IsAlias(op)
  {
    DifferAt(op, "allcommands", 0);
    DifferAt(op, "nocommands", 0);
    if |op| == 5 && op[1] == '@' {
      assert Lower(op)[2..] == Lower(op[2..]) by { LowerAt(op, 2); }
      assert "+@all"[2..] == "all" && "-@all"[2..] == "all";
      assert Lower("+@all") == "+@all" && Lower("-@all") == "-@all";
    } else if op[1] != '@' {
      DifferAt(op, "+@all", 1);
      DifferAt(op, "-@all", 1);
    }
  }

  /** What a rule without a first-arg to add does, bit by bit. */
  lemma EffectBits(p: CommandPerms, e: Effect, q: CommandPerms)
    requires q.bits == ApplyEffect(p, e).bits && q.firstArgs == ApplyEffect(p, e).firstArgs
    ensures forall id :: id in q.bits <==> if id in e.bits then e.allow else id in p.bits
    ensures e.add.None? ==> forall id :: ArgsFor(q.firstArgs, id) == if id in e.resets then [] else ArgsFor(p.firstArgs, id)
  {}

  lemma EffectFlag(p: CommandPerms, e: Effect, q: CommandPerms)
    requires q.allCommands == ApplyEffect(p, e).allCommands
    ensures q.allCommands <==> p.allCommands && (e.allow || forall id :: id !in e.bits)
  {
    assert e.bits == {} <==> forall id :: id !in e.bits;
  }

  /**
   "+@c" allows, and "-@c" blocks, exactly the commands and subcommands that carry category c or belong to a command
   that does. Every other bit stays.
   */
  lemma CategoryWordMeans(t: Table, s: Selector, op: string)
    requires Signed(op) && |op| > 1 && op[1] == '@' && Lower(op[2..]) != "all"
    ensures SetSelector(t, s, op).Ok? <==> Lower(op[2..]) in t.categories
    ensures SetSelector(t, s, op).Err? ==> SetSelector(t, s, op) == Err(ENOENT)
    ensures SetSelector(t, s, op).Ok? ==>
              var s', flag := SetSelector(t, s, op).value, t.categories[Lower(op[2..])];
              && OnlyCommands(s, s')
              && forall id: nat :: id in s'.commands.bits <==>
                   if id < 1024 && Carries(t, flag, id) then op[0] == '+' else id in s.commands.bits
  {
    hide SetSelector, SetSelectorWord, Lower, IsAlias, CategoryBits, CategoryResets, Carries, DropSuperseded;
    SignedWord(t, s, op);
    NotAll(op);
    WordsOfCommands(op);
    CategoryParts(op);
    if Lower(op[2..]) in t.categories {
      var c := ParseRule(t, op).value;
      EffectBits(s.commands, c.effect, SetCommands(t, s.commands, op).value);
      forall id: nat ensures id in InBitmap(CategoryBits(t, t.categories[Lower(op[2..])])) <==>
                             id < 1024 && Carries(t, t.categories[Lower(op[2..])], id) {
        CarriesIsBits(t, t.categories[Lower(op[2..])], id);
      }
    }
  }

  /** The id is that of a command or of a subcommand that has the category itself. */
  ghost predicate HasCategory(t: Table, flag: nat, id: nat) {
    || (exists n :: n in t.commands && t.commands[n].id == id && flag in t.commands[n].categories)
    || (exists n, m :: n in t.commands && m in t.commands[n].subs && t.commands[n].subs[m].id == id
          && flag in t.commands[n].subs[m].categories)
  }

  lemma HasCategoryIsReset(t: Table, flag: nat, id: nat)
    ensures id in CategoryResets(t, flag) <==> HasCategory(t, flag, id)
  {}

  /**
   A category word flushes the first-args of what has the category, and the flag for all commands goes when "-@c" blocks
   something.
   */
  lemma CategoryWordFlushes(t: Table, s: Selector, op: string)
    requires Signed(op) && |op| > 1 && op[1] == '@' && Lower(op[2..]) != "all"
    requires Lower(op[2..]) in t.categories && SetSelector(t, s, op).Ok?
    ensures var q, flag := SetSelector(t, s, op).value.commands, t.categories[Lower(op[2..])];
            && (q.allCommands <==> s.commands.allCommands && (op[0] == '+' || forall id: nat :: id < 1024 ==> !Carries(t, flag, id)))
            && forall id: nat :: ArgsFor(q.firstArgs, id) ==
                 if HasCategory(t, flag, id) then [] else ArgsFor(s.commands.firstArgs, id)
  {
    hide SetSelector, SetSelectorWord, Lower, IsAlias, CategoryBits, CategoryResets, Carries, DropSuperseded, HasCategory;
    SignedWord(t, s, op);
    NotAll(op);
    WordsOfCommands(op);
    CategoryParts(op);
    var flag, c := t.categories[Lower(op[2..])], ParseRule(t, op).value;
    EffectBits(s.commands, c.effect, SetCommands(t, s.commands, op).value);
    EffectFlag(s.commands, c.effect, SetCommands(t, s.commands, op).value);
    forall id: nat
      ensures id in InBitmap(CategoryBits(t, flag)) <==> id < 1024 && Carries(t, flag, id)
      ensures id in CategoryResets(t, flag) <==> HasCategory(t, flag, id) {
      CarriesIsBits(t, flag, id);
      HasCategoryIsReset(t, flag, id);
    }
  }

  lemma CategoryParts(op: string)
    requires |op| > 1
    ensures op[1..][1..] == op[2..] && op[1..][0] == op[1]
  {}

  /** What a category word means for the check: allowed commands are accepted, blocked ones are denied. */
  lemma CategoryWordDecides(t: Table, s: Selector, op: string, r: Request)
    requires Signed(op) && |op| > 1 && op[1] == '@' && Lower(op[2..]) != "all" && SetSelector(t, s, op).Ok?
    requires r.id < 1024 && Lower(op[2..]) in t.categories && Carries(t, t.categories[Lower(op[2..])], r.id)
    requires FitsSelector(r, SetSelector(t, s, op).value)
    ensures op[0] == '+' ==> CommandAllowed(SetSelector(t, s, op).value, r)
    ensures op[0] == '-' && Consistent(t, s.commands) ==> (CommandAllowed(SetSelector(t, s, op).value, r) <==> r.noAuth)
  {
    hide SetSelector, SetSelectorWord, Lower, IsAlias, CategoryBits, CategoryResets, Carries, DropSuperseded, Consistent, HasArg;
    CategoryWordMeans(t, s, op);
    if op[0] == '-' && Consistent(t, s.commands) {
      BlockedCategory(t, s, op, r.id);
    }
  }

  lemma BlockedCategory(t: Table, s: Selector, op: string, id: nat)
    requires Signed(op) && |op| > 1 && op[0] == '-' && op[1] == '@' && Lower(op[2..]) != "all" && SetSelector(t, s, op).Ok?
    requires id < 1024 && Lower(op[2..]) in t.categories && Carries(t, t.categories[Lower(op[2..])], id)
    requires Consistent(t, s.commands)
    ensures var p := SetSelector(t, s, op).value.commands; !p.allCommands && ArgsFor(p.firstArgs, id) == []
  {
    hide SetSelector, SetSelectorWord, Lower, IsAlias, CategoryBits, CategoryResets, Carries, DropSuperseded, Consistent;
    SignedWord(t, s, op);
    NotAll(op);
    WordsOfCommands(op);
    CategoryParts(op);
    var flag, c := t.categories[Lower(op[2..])], ParseRule(t, op).value;
    EffectBits(s.commands, c.effect, SetCommands(t, s.commands, op).value);
    CarriesIsBits(t, flag, id);
    assert id in InBitmap(CategoryBits(t, flag));
    if id !in CategoryResets(t, flag) {
      CarriersAreReset(t, flag, id);
      SubsHaveNoArgs(t, s.commands, id);
    }
  }

  lemma CarriersAreReset(t: Table, flag: nat, id: nat)
    requires Carries(t, flag, id)
    ensures id in CategoryResets(t, flag) || id in SubcommandIds(t)
  {
    if n, m :| n in t.commands && m in t.commands[n].subs && t.commands[n].subs[m].id == id
               && (flag in t.commands[n].categories || flag in t.commands[n].subs[m].categories) {
      assert id in SubcommandIds(t);
    }
  }

  lemma SubsHaveNoArgs(t: Table, p: CommandPerms, id: nat)
    requires Consistent(t, p) && id in SubcommandIds(t)
    ensures ArgsFor(p.firstArgs, id) == []
  {
    if ArgsFor(p.firstArgs, id) != [] {
      ListedArg(p.firstArgs, id);
    }
  }

  // ---- commands ----

  /** The id is that of the command or of one of its subcommands. */
  ghost predicate Belongs(c: Top, id: nat) {
    id == c.id || exists m :: m in c.subs && c.subs[m].id == id
  }

  lemma BelongsIsBits(c: Top, id: nat)
    ensures id in CommandBits(TopCommand(c)) <==> Belongs(c, id)
  {
    if m :| m in c.subs && c.subs[m].id == id {
      assert id in SubIds(c);
    }
  }

  lemma LookupWithoutBar(t: Table, name: string)
    requires '|' !in name
    ensures LookupCommand(t, name) == if Lower(name) in t.commands then Some(TopCommand(t.commands[Lower(name)])) else None
  {
    IndexOfUnique(name, '|', |name|);
    assert name[..|name|] == name;
  }

  /** "+name" allows, and "-name" blocks, exactly the command and its subcommands, and its first-args are forgotten. */
  lemma CommandWordMeans(t: Table, s: Selector, op: string)
    requires Signed(op) && |op| > 1 && op[1] != '@' && '|' !in op
    ensures SetSelector(t, s, op).Ok? <==> Lower(op[1..]) in t.commands
    ensures SetSelector(t, s, op).Err? ==> SetSelector(t, s, op) == Err(ENOENT)
    ensures SetSelector(t, s, op).Ok? ==>
              var s', c := SetSelector(t, s, op).value, t.commands[Lower(op[1..])];
              && OnlyCommands(s, s')
              && (forall id: nat :: id in s'.commands.bits <==>
                    if id < 1024 && Belongs(c, id) then op[0] == '+' else id in s.commands.bits)
              && (forall id: nat :: ArgsFor(s'.commands.firstArgs, id) == if id == c.id then [] else ArgsFor(s.commands.firstArgs, id))
  {
    hide SetSelector, SetSelectorWord, Lower, IsAlias, LookupCommand, CommandBits, DropSuperseded, Belongs;
    SignedWord(t, s, op);
    NotAll(op);
    WordsOfCommands(op);
    assert forall x :: x in op[1..] ==> x in op;
    LookupWithoutBar(t, op[1..]);
    if Lower(op[1..]) in t.commands {
      var c := t.commands[Lower(op[1..])];
      EffectBits(s.commands, CommandEffect(TopCommand(c), op[0] == '+'), SetCommands(t, s.commands, op).value);
      forall id: nat ensures id in InBitmap(CommandBits(TopCommand(c))) <==> id < 1024 && Belongs(c, id) {
        BelongsIsBits(c, id);
      }
    }
  }

  /** The flag for all commands goes when "-name" blocks something. */
  lemma CommandWordFlag(t: Table, s: Selector, op: string)
    requires Signed(op) && |op| > 1 && op[1] != '@' && '|' !in op
    requires Lower(op[1..]) in t.commands && SetSelector(t, s, op).Ok?
    ensures SetSelector(t, s, op).value.commands.allCommands <==>
            s.commands.allCommands && (op[0] == '+' || forall id: nat :: id < 1024 ==> !Belongs(t.commands[Lower(op[1..])], id))
  {
    hide SetSelector, SetSelectorWord, Lower, IsAlias, LookupCommand, CommandBits, DropSuperseded, Belongs;
    SignedWord(t, s, op);
    NotAll(op);
    WordsOfCommands(op);
    assert forall x :: x in op[1..] ==> x in op;
    LookupWithoutBar(t, op[1..]);
    var c := t.commands[Lower(op[1..])];
    EffectFlag(s.commands, CommandEffect(TopCommand(c), op[0] == '+'), SetCommands(t, s.commands, op).value);
    forall id: nat ensures id in InBitmap(CommandBits(TopCommand(c))) <==> id < 1024 && Belongs(c, id) {
      BelongsIsBits(c, id);
    }
  }

  /** The parts of a word with one bar, at place `k`. */
  predicate OneBar(op: string, k: nat) {
    0 < k < |op| && op[k] == '|' && '|' !in op[1..k] && '|' !in op[k + 1..] && op[1] != '@'
  }

  lemma LookupOneBar(t: Table, op: string, k: nat)
    requires op != "" && OneBar(op, k)
    ensures var base, rest := Lower(op[1..k]), Lower(op[k + 1..]);
            && LookupCommand(t, op[1..k]) == (if base in t.commands then Some(TopCommand(t.commands[base])) else None)
            && LookupCommand(t, op[1..]) ==
               if base in t.commands && rest in t.commands[base].subs
               then Some(SubCommand(t.commands[base], t.commands[base].subs[rest])) else None
    ensures '|' in op[1..] && LastIndexOf(op[1..], '|') == k - 1
    ensures op[1..][..k - 1] == op[1..k] && op[1..][k..] == op[k + 1..]
  {
    var body := op[1..];
    assert body[k - 1] == '|' && body[..k - 1] == op[1..k] && body[k..] == op[k + 1..];
    LookupWithoutBar(t, op[1..k]);
    assert forall j :: 0 <= j < k - 1 ==> body[j] == op[1..k][j];
    IndexOfUnique(body, '|', k - 1);
    LowerKeepsBars(op[k + 1..]);
    assert forall j :: k - 1 < j < |body| ==> body[j] == op[k + 1..][j - k];
  }

  /** "-container|sub" blocks exactly that subcommand. */
  lemma BlockedSubMeans(t: Table, s: Selector, op: string, k: nat)
    requires Signed(op) && OneBar(op, k) && op[0] == '-'
    ensures var base, rest := Lower(op[1..k]), Lower(op[k + 1..]);
            && (SetSelector(t, s, op).Ok? <==> base in t.commands && rest in t.commands[base].subs)
            && (SetSelector(t, s, op).Err? ==> SetSelector(t, s, op) == Err(ENOENT))
            && (SetSelector(t, s, op).Ok? ==>
                  && OnlyCommands(s, SetSelector(t, s, op).value)
                  && forall id: nat :: id in SetSelector(t, s, op).value.commands.bits <==>
                       id in s.commands.bits && (id >= 1024 || id != t.commands[base].subs[rest].id))
  {
    hide SetSelector, SetSelectorWord, Lower, IsAlias, LookupCommand, DropSuperseded, LastIndexOf;
    SignedWord(t, s, op);
    NotAll(op);
    WordsOfCommands(op);
    LookupOneBar(t, op, k);
    var base, rest := Lower(op[1..k]), Lower(op[k + 1..]);
    if base in t.commands && rest in t.commands[base].subs {
      var c := SubCommand(t.commands[base], t.commands[base].subs[rest]);
      EffectBits(s.commands, CommandEffect(c, false), SetCommands(t, s.commands, op).value);
    }
  }

  /** What "+command|rest" comes to, error by error: for a container one subcommand, else one more first-arg. */
  lemma AllowedSubMeans(t: Table, s: Selector, op: string, k: nat)
    requires Signed(op) && OneBar(op, k) && op[0] == '+'
    ensures var base, rest, r := Lower(op[1..k]), op[k + 1..], SetSelector(t, s, op);
            if base !in t.commands then r == Err(ENOENT)
            else if rest == "" then r == Err(EINVAL)
            else if t.commands[base].subs == map[] then
              && r.Ok? && OnlyCommands(s, r.value) && r.value.commands.bits == s.commands.bits
              && var id, have := t.commands[base].id, ArgsFor(s.commands.firstArgs, t.commands[base].id);
                 && (forall other: nat :: other != id ==>
                       ArgsFor(r.value.commands.firstArgs, other) == ArgsFor(s.commands.firstArgs, other))
                 && ArgsFor(r.value.commands.firstArgs, id) ==
                    if exists i :: 0 <= i < |have| && Lower(have[i]) == Lower(rest) then have else have + [rest]
            else if Lower(rest) !in t.commands[base].subs then r == Err(ENOENT)
            else
              && r.Ok? && OnlyCommands(s, r.value)
              && forall id: nat :: id in r.value.commands.bits <==>
                   id in s.commands.bits || (id < 1024 && id == t.commands[base].subs[Lower(rest)].id)
  {
    hide SetSelector, SetSelectorWord, Lower, IsAlias, LookupCommand, DropSuperseded, LastIndexOf;
    SignedWord(t, s, op);
    NotAll(op);
    WordsOfCommands(op);
    LookupOneBar(t, op, k);
    var base, rest := Lower(op[1..k]), op[k + 1..];
    if base in t.commands && rest != "" && t.commands[base].subs != map[] && Lower(rest) in t.commands[base].subs {
      var c := SubCommand(t.commands[base], t.commands[base].subs[Lower(rest)]);
      EffectBits(s.commands, CommandEffect(c, true), SetCommands(t, s.commands, op).value);
    }
  }

  /** An allowed first-arg or subcommand leaves the flag for all commands as it was; a blocked subcommand takes it away. */
  lemma BarWordFlag(t: Table, s: Selector, op: string, k: nat)
    requires Signed(op) && OneBar(op, k) && SetSelector(t, s, op).Ok?
    ensures op[0] == '+' ==> SetSelector(t, s, op).value.commands.allCommands == s.commands.allCommands
    ensures var base, rest := Lower(op[1..k]), Lower(op[k + 1..]);
            op[0] == '-' && base in t.commands && rest in t.commands[base].subs && t.commands[base].subs[rest].id < 1024 ==>
              !SetSelector(t, s, op).value.commands.allCommands
  {
    hide SetSelector, SetSelectorWord, Lower, IsAlias, LookupCommand, DropSuperseded, LastIndexOf;
    SignedWord(t, s, op);
    NotAll(op);
    WordsOfCommands(op);
    LookupOneBar(t, op, k);
    if op[0] == '-' {
      BlockedBarFlag(t, s.commands, op, k);
    }
  }

  lemma BlockedBarFlag(t: Table, p: CommandPerms, op: string, k: nat)
    requires op != "" && op[0] == '-' && OneBar(op, k)
    ensures var base, rest := Lower(op[1..k]), Lower(op[k + 1..]);
            base in t.commands && rest in t.commands[base].subs && t.commands[base].subs[rest].id < 1024 ==>
              ParseRule(t, op).Ok? && !ApplyChange(p, ParseRule(t, op).value).allCommands
  {
    hide Lower, LookupCommand, DropSuperseded;
    LookupOneBar(t, op, k);
    var base, rest := Lower(op[1..k]), Lower(op[k + 1..]);
    if base in t.commands && rest in t.commands[base].subs && t.commands[base].subs[rest].id < 1024 {
      assert t.commands[base].subs[rest].id in ParseRule(t, op).value.effect.bits;
    }
  }

  lemma BodyBars(op: string, k: nat, m: nat)
    requires 0 < k < m < |op| && op[k] == '|' && op[m] == '|' && '|' !in op[1..k] && '|' !in op[m + 1..]
    ensures var body := op[1..];
            && |body| == |op| - 1 && body[0] == op[1] && body[k - 1] == '|' && '|' !in body[..k - 1] && '|' in body[k..]
            && LastIndexOf(body, '|') == m - 1 && '|' in body
  {
    var body := op[1..];
    assert body[..k - 1] == op[1..k] && body[m - 1] == '|' && body[k..][m - 1 - k] == '|';
    assert forall j :: m - 1 < j < |body| ==> body[j] == op[m + 1..][j - m];
  }

  /** A word with more than one bar is always refused. */
  lemma TwoBarsAreRefused(t: Table, s: Selector, op: string, k: nat, m: nat)
    requires Signed(op) && 0 < k < m < |op| && op[k] == '|' && op[m] == '|' && '|' !in op[1..k] && '|' !in op[m + 1..]
    requires op[1] != '@'
    ensures SetSelector(t, s, op) in {Err(ENOENT), Err(ECHILD)}
  {
    hide SetSelector, SetSelectorWord, Lower, IsAlias, DropSuperseded, LookupCommand, LastIndexOf, ApplyChange;
    SignedWord(t, s, op);
    NotAll(op);
    WordsOfCommands(op);
    BodyBars(op, k, m);
    var body := op[1..];
    LookupBehindBar(t, body, k - 1);
    assert body[..m - 1][..k - 1] == body[..k - 1] && body[..m - 1][k - 1] == '|';
    LookupBehindBar(t, body[..m - 1], k - 1);
  }

  /** Behind the first bar, a name finds at most a subcommand; with another bar in it, nothing. */
  lemma LookupBehindBar(t: Table, name: string, i: nat)
    requires i < |name| && name[i] == '|' && '|' !in name[..i]
    ensures LookupCommand(t, name).Some? ==> LookupCommand(t, name).value.SubCommand?
    ensures '|' in name[i + 1..] ==> LookupCommand(t, name).None?
  {
    assert forall j :: 0 <= j < i ==> name[j] == name[..i][j];
    IndexOfUnique(name, '|', i);
    LowerKeepsBars(name[i + 1..]);
  }

  /** All commands, future ones included, or none. */
  lemma AllCommandsMeans(t: Table, s: Selector, op: string)
    requires Lower(op) in {"+@all", "-@all", "allcommands", "nocommands"}
    ensures SetSelector(t, s, op).Ok?
    ensures var s', all := SetSelector(t, s, op).value, Lower(op) == "+@all" || Lower(op) == "allcommands";
            && OnlyCommands(s, s') && s'.commands.allCommands == all
            && (forall id: nat :: id in s'.commands.bits <==> all && id < 1024)
            && s'.commands.firstArgs == map[] && s'.commands.rules == []
  {
    hide SetSelector, SetSelectorWord, CString;
    LowerWord(op);
    PlainWordOfSelector(t, s, op);
    AliasIsCommand(op);
    CommandWord(t, s, op, op);
    DifferAt("allcommands", "nocommands", 0);
    DifferAt("-@all", "+@all", 0);
    assert Lower("+@all") == "+@all" && Lower("-@all") == "-@all";
    assert Lower("allcommands") == "allcommands" && Lower("nocommands") == "nocommands";
  }

  lemma LowerWord(op: string)
    requires Lower(op) in {"+@all", "-@all", "allcommands", "nocommands"}
    ensures '\0' !in op && IsAlias(op)
  {
    LowerKeeps(op, '\0');
    assert Lower("+@all") == "+@all" && Lower("-@all") == "-@all";
    assert Lower("allcommands") == "allcommands" && Lower("nocommands") == "nocommands";
    assert '\0' !in "+@all" && '\0' !in "-@all" && '\0' !in "allcommands" && '\0' !in "nocommands";
  }

  // ---- the rules that are retained ----

  /** `at` are the places of the rules in `kept`: exactly those for other names that do not extend the new one. */
  ghost predicate KeptAt(rules: seq<Rule>, added: string, kept: seq<Rule>, at: seq<nat>) {
    && |at| == |kept|
    && (forall i :: 0 <= i < |at| ==> at[i] < |rules| && kept[i] == rules[at[i]])
    && (forall i, j :: 0 <= i < j < |at| ==> at[i] < at[j])
    && (forall k: nat :: k < |rules| ==> (k in at <==> Stays(rules[k], added)))
  }

  /** The rule has another name, and not one that extends the new one. */
  predicate Stays(r: Rule, added: string) {
    r.name != added && !(added + "|" <= r.name)
  }

  function Later(rest: seq<nat>): (r: seq<nat>)
    ensures |r| == |rest| && forall i :: 0 <= i < |r| ==> r[i] == rest[i] + 1
  {
    if rest == [] then [] else [rest[0] + 1] + Later(rest[1..])
  }

  lemma KeptAtStep(rules: seq<Rule>, added: string, kept: seq<Rule>, rest: seq<nat>) returns (at: seq<nat>)
    requires rules != [] && KeptAt(rules[1..], added, kept, rest)
    ensures KeptAt(rules, added, (if Stays(rules[0], added) then [rules[0]] else []) + kept, at)
  {
    hide Stays, Later;
    LaterKeeps(rules, kept, rest);
    forall k: nat | k < |rules| && k > 0 ensures k in Later(rest) <==> Stays(rules[k], added) {
      LaterHas(rest, k);
      assert rules[1..][k - 1] == rules[k];
    }
    LaterHas(rest, 0);
    if Stays(rules[0], added) {
      at := [0] + Later(rest);
      FirstToo(Later(rest), rules, kept);
    } else {
      at := Later(rest);
      assert [] + kept == kept;
    }
  }

  lemma LaterKeeps(rules: seq<Rule>, kept: seq<Rule>, rest: seq<nat>)
    requires rules != [] && |rest| == |kept|
    requires forall i :: 0 <= i < |rest| ==> rest[i] < |rules[1..]| && kept[i] == rules[1..][rest[i]]
    requires forall i, j :: 0 <= i < j < |rest| ==> rest[i] < rest[j]
    ensures |Later(rest)| == |kept|
    ensures forall i :: 0 <= i < |rest| ==> 0 < Later(rest)[i] < |rules| && kept[i] == rules[Later(rest)[i]]
    ensures forall i, j :: 0 <= i < j < |rest| ==> Later(rest)[i] < Later(rest)[j]
  {}

  lemma FirstToo(later: seq<nat>, rules: seq<Rule>, kept: seq<Rule>)
    requires rules != [] && |later| == |kept|
    requires forall i :: 0 <= i < |later| ==> 0 < later[i] < |rules| && kept[i] == rules[later[i]]
    requires forall i, j :: 0 <= i < j < |later| ==> later[i] < later[j]
    ensures var at, all := [0 as nat] + later, [rules[0]] + kept;
            && |at| == |all| && (forall i :: 0 <= i < |at| ==> at[i] < |rules| && all[i] == rules[at[i]])
            && (forall i, j :: 0 <= i < j < |at| ==> at[i] < at[j])
            && forall k: nat :: k in at <==> k == 0 || k in later
  {}

  lemma LaterHas(rest: seq<nat>, k: nat)
    ensures k in Later(rest) <==> k > 0 && k - 1 in rest
  {
    if k > 0 && k - 1 in rest {
      var i :| 0 <= i < |rest| && rest[i] == k - 1;
      assert Later(rest)[i] == k;
    }
  }

  /** What is left of the rules, in their order. */
  lemma {:induction false} DroppedAre(rules: seq<Rule>, added: string) returns (at: seq<nat>)
    ensures KeptAt(rules, added, DropSuperseded(rules, added), at)
  {
    if rules == [] {
      at := [];
    } else {
      hide KeptAt, Supersedes;
      SupersedesIs(added, rules[0].name);
      var rest := DroppedAre(rules[1..], added);
      at := KeptAtStep(rules, added, DropSuperseded(rules[1..], added), rest);
    }
  }

  lemma SupersedesIs(added: string, name: string)
    ensures Supersedes(added, name) <==> name == added || added + "|" <= name
  {
    if added + "|" <= name {
      assert name[..|added|] == added && name[|added|] == (added + "|")[|added|];
    }
    if |name| > |added| && name[..|added|] == added && name[|added|] == '|' {
      assert name[..|added| + 1] == added + "|";
    }
  }

  /** An accepted rule is retained last, in lower case, behind what is left of the earlier ones. */
  lemma RetainedLast(t: Table, s: Selector, op: string)
    requires ValidTable(t) && Signed(op) && |op| > 1 && (op[1] == '@' ==> Lower(op[2..]) != "all") && SetSelector(t, s, op).Ok?
    ensures SetSelector(t, s, op).value.commands.rules ==
            DropSuperseded(s.commands.rules, Lower(op[1..])) + [Rule(op[0] == '+', Lower(op[1..]))]
  {
    hide SetSelector, SetSelectorWord, Lower, IsAlias, ParseRule, DropSuperseded, ValidTable;
    SignedWord(t, s, op);
    NotAll(op);
    RuleNameIsLower(t, op, ParseRule(t, op).value);
  }

  // ---- keys and channels ----

  /** The words for all keys, no keys, all channels and no channels. */
  lemma AllKeysAndChannelsMean(t: Table, s: Selector)
    ensures SetSelector(t, s, "allkeys") == SetSelector(t, s, "~*") == Ok(s.(allKeys := true, patterns := []))
    ensures SetSelector(t, s, "resetkeys") == Ok(s.(allKeys := false, patterns := []))
    ensures SetSelector(t, s, "allchannels") == SetSelector(t, s, "&*") == Ok(s.(allChannels := true, channels := []))
    ensures SetSelector(t, s, "resetchannels") == Ok(s.(allChannels := false, channels := []))
  {
    hide SetSelector, CString, EqNoCase;
    KeyWordsAreApart();
    PlainWordOfSelector(t, s, "allkeys");
    PlainWordOfSelector(t, s, "~*");
    PlainWordOfSelector(t, s, "resetkeys");
    PlainWordOfSelector(t, s, "allchannels");
    PlainWordOfSelector(t, s, "&*");
    PlainWordOfSelector(t, s, "resetchannels");
  }

  lemma KeyWordsAreApart()
    ensures EqNoCase("allkeys", "allkeys") && EqNoCase("~*", "~*") && EqNoCase("resetkeys", "resetkeys")
    ensures EqNoCase("allchannels", "allchannels") && EqNoCase("&*", "&*") && EqNoCase("resetchannels", "resetchannels")
    ensures !EqNoCase("resetkeys", "allkeys") && !EqNoCase("resetkeys", "~*")
    ensures !EqNoCase("allchannels", "allkeys") && !EqNoCase("allchannels", "~*") && !EqNoCase("allchannels", "resetkeys")
    ensures !EqNoCase("&*", "allkeys") && !EqNoCase("&*", "~*") && !EqNoCase("&*", "resetkeys")
    ensures !EqNoCase("resetchannels", "allkeys") && !EqNoCase("resetchannels", "~*") && !EqNoCase("resetchannels", "resetkeys")
    ensures !EqNoCase("resetchannels", "allchannels") && !EqNoCase("resetchannels", "&*")
  {
    DifferAt("resetkeys", "allkeys", 0);
    DifferAt("resetkeys", "~*", 0);
    DifferAt("allchannels", "allkeys", 3);
    DifferAt("allchannels", "~*", 0);
    DifferAt("allchannels", "resetkeys", 0);
    DifferAt("&*", "allkeys", 0);
    DifferAt("&*", "~*", 0);
    DifferAt("&*", "resetkeys", 0);
    DifferAt("resetchannels", "allkeys", 0);
    DifferAt("resetchannels", "~*", 0);
    DifferAt("resetchannels", "resetkeys", 5);
    DifferAt("resetchannels", "allchannels", 0);
    DifferAt("resetchannels", "&*", 0);
  }

  /** The permissions a prefix of a key pattern stands for. */
  predicate Prefix(prefix: string, read: bool, write: bool) {
    || (prefix == "~" && read && write)
    || (prefix in {"%R~", "%r~"} && read && !write)
    || (prefix in {"%W~", "%w~"} && !read && write)
    || (prefix in {"%RW~", "%WR~", "%rw~", "%wr~", "%Rw~", "%rW~", "%Wr~", "%wR~"} && read && write)
  }

  lemma PrefixParses(prefix: string, pattern: string, read: bool, write: bool)
    requires Prefix(prefix, read, write)
    ensures ParseKeyPattern(prefix + pattern) == if HasSpaces(pattern) then Err(EINVAL) else Ok(KeyPattern(pattern, read, write))
  {
    var op := prefix + pattern;
    assert op[|prefix|..] == pattern;
    if prefix != "~" {
      hide HasSpaces;
      assert op[1] == prefix[1] && op[2] == prefix[2];
      if |prefix| == 4 {
        assert op[3] == '~';
        assert ParsePermissions(op, 3, true, true) == Ok((true, true, 4));
        assert ParsePermissions(op, 2, UpperIs(op[1], 'R'), UpperIs(op[1], 'W')) == ParsePermissions(op, 3, true, true);
      } else {
        assert ParsePermissions(op, 2, read, write) == Ok((read, write, 3));
      }
      assert ParsePermissions(op, 1, false, false) == Ok((read, write, |prefix|));
    }
  }

  lemma {:induction false} OnlyInvalid(op: string, k: nat, read: bool, write: bool)
    requires k <= |op|
    ensures ParsePermissions(op, k, read, write).Err? ==> ParsePermissions(op, k, read, write) == Err(EINVAL)
    decreases |op| - k
  {
    if k < |op| {
      OnlyInvalid(op, k + 1, true, write);
      OnlyInvalid(op, k + 1, read, true);
    }
  }

  /** With both letters read, or none, there is at most a tilde. */
  lemma NoMoreLetters(op: string, k: nat)
    requires k <= |op| && ParsePermissions(op, k, true, true).Ok?
    ensures ParsePermissions(op, k, true, true).value == if k < |op| then (true, true, k + 1) else (true, true, k)
    ensures k < |op| ==> op[k] == '~'
  {}

  lemma SecondLetter(op: string, read: bool, write: bool)
    requires 2 <= |op| && read != write && ParsePermissions(op, 2, read, write).Ok?
    ensures var r := ParsePermissions(op, 2, read, write).value;
            || (|op| == 2 && r == (read, write, 2))
            || (|op| > 2 && op[2] == '~' && r == (read, write, 3))
            || (|op| > 2 && op[2] in (if read then "Ww" else "Rr") && r == ParsePermissions(op, 3, true, true).value
                && ParsePermissions(op, 3, true, true).Ok?)
  {
    if |op| > 2 {
      Letter(op[2]);
    }
  }

  lemma FirstLetter(op: string)
    requires 1 <= |op| && ParsePermissions(op, 1, false, false).Ok?
    ensures var r := ParsePermissions(op, 1, false, false);
            || (!r.value.0 && !r.value.1)
            || (|op| > 1 && op[1] in "Rr" && r == ParsePermissions(op, 2, true, false))
            || (|op| > 1 && op[1] in "Ww" && r == ParsePermissions(op, 2, false, true))
  {
    if |op| > 1 {
      Letter(op[1]);
    }
  }

  /** The letters of a permission, with the tilde or without it. */
  lemma LettersAre(op: string)
    requires op != "" && op[0] == '%' && ParsePermissions(op, 1, false, false).Ok?
    ensures var (read, write, k) := ParsePermissions(op, 1, false, false).value;
            read || write ==> k <= |op| && (Prefix(op[..k], read, write) || (k == |op| && Prefix(op + "~", read, write)))
  {
    hide ParsePermissions;
    FirstLetter(op);
    var (read, write, k) := ParsePermissions(op, 1, false, false).value;
    if read || write {
      SecondLetter(op, op[1] in "Rr", op[1] in "Ww");
      if |op| == 2 {
        assert op + "~" == ['%', op[1], '~'];
      } else if op[2] == '~' {
        assert op[..3] == ['%', op[1], '~'];
      } else {
        NoMoreLetters(op, 3);
        if |op| == 3 {
          assert op + "~" == ['%', op[1], op[2], '~'];
        } else {
          assert op[..4] == ['%', op[1], op[2], '~'];
        }
      }
    }
  }

  lemma Letter(c: char)
    ensures UpperIs(c, 'R') <==> c == 'R' || c == 'r'
    ensures UpperIs(c, 'W') <==> c == 'W' || c == 'w'
  {}

  /** The word starts with permission letters; without a tilde there is nothing else in it. */
  ghost predicate StartsWithLetters(op: string) {
    exists k: nat, read, write :: k <= |op| && LettersTo(op, k, read, write)
  }

  ghost predicate LettersTo(op: string, k: nat, read: bool, write: bool)
    requires k <= |op|
  {
    Prefix(op[..k], read, write) || (k == |op| && Prefix(op + "~", read, write))
  }

  /** A word with other letters behind the percent sign, with one twice, or with none, is refused. */
  lemma OtherPermissionsAreRefused(t: Table, s: Selector, op: string)
    requires op != "" && op[0] == '%' && '\0' !in op && !s.allKeys && !StartsWithLetters(op)
    ensures SetSelector(t, s, op) == Err(EINVAL)
  {
    hide SetSelector, CString, EqNoCase, IsCommandOp, AddKeyPattern, HasSpaces, ParsePermissions, Prefix;
    PlainWordOfSelector(t, s, op);
    SymbolIsNoWord(op);
    NotACommand(op);
    OnlyInvalid(op, 1, false, false);
    if ParsePermissions(op, 1, false, false).Ok? {
      LettersAre(op);
      var (read, write, k) := ParsePermissions(op, 1, false, false).value;
      assert read || write ==> LettersTo(op, k, read, write);
    }
  }

  /** A pattern is granted once, with the permissions it was given together; the others stay as and where they are. */
  ghost predicate Granted(ps: seq<KeyPattern>, pattern: string, read: bool, write: bool, ps': seq<KeyPattern>) {
    && |ps| <= |ps'|
    && (forall i :: 0 <= i < |ps| ==>
          ps'[i] == if ps[i].pattern == pattern then KeyPattern(pattern, ps[i].read || read, ps[i].write || write) else ps[i])
    && if exists i :: 0 <= i < |ps| && ps[i].pattern == pattern then |ps'| == |ps|
       else |ps'| == |ps| + 1 && ps'[|ps|] == KeyPattern(pattern, read, write)
  }

  lemma {:induction false} AddGrants(ps: seq<KeyPattern>, p: KeyPattern)
    requires forall i, j :: 0 <= i < j < |ps| ==> ps[i].pattern != ps[j].pattern
    ensures Granted(ps, p.pattern, p.read, p.write, AddKeyPattern(ps, p))
  {
    if ps != [] && ps[0].pattern != p.pattern {
      AddGrants(ps[1..], p);
      var rest := AddKeyPattern(ps[1..], p);
      assert forall i :: 0 < i < |ps| ==> ps[i] == ps[1..][i - 1];
    }
  }

  /** "~p", "%R~p", "%W~p" and "%RW~p" grant the pattern, unless all keys are granted or it holds white space. */
  lemma KeyWordMeans(t: Table, s: Selector, prefix: string, pattern: string, read: bool, write: bool)
    requires ValidKeys(s) && Prefix(prefix, read, write) && '\0' !in pattern && !(prefix == "~" && pattern == "*")
    ensures var r := SetSelector(t, s, prefix + pattern);
            if s.allKeys then r == Err(EEXIST)
            else if exists i :: 0 <= i < |pattern| && pattern[i] in " \t\n\r" + [11 as char, 12 as char] then r == Err(EINVAL)
            else r.Ok? && r.value == s.(patterns := r.value.patterns)
                 && Granted(s.patterns, pattern, read, write, r.value.patterns)
  {
    hide SetSelector, CString, EqNoCase, IsCommandOp, ParseKeyPattern, AddKeyPattern, HasSpaces, Granted;
    var op := prefix + pattern;
    PrefixStarts(prefix, pattern, read, write);
    PlainWordOfSelector(t, s, op);
    SymbolIsNoWord(op);
    NotACommand(op);
    if op[0] == '~' {
      StarOnly(op, '~');
    }
    PrefixParses(prefix, pattern, read, write);
    AddGrants(s.patterns, KeyPattern(pattern, read, write));
    SpacesAre(pattern);
  }

  lemma SpacesAre(s: string)
    requires '\0' !in s
    ensures HasSpaces(s) <==> exists i :: 0 <= i < |s| && s[i] in " \t\n\r" + [11 as char, 12 as char]
  {
    forall c: char ensures IsSpace(c) <==> c in " \t\n\r" + [11 as char, 12 as char] {
      OneSpace(c);
    }
  }

  lemma OneSpace(c: char)
    ensures IsSpace(c) <==> c in " \t\n\r" + [11 as char, 12 as char]
  {
    var all := " \t\n\r" + [11 as char, 12 as char];
    assert all == [' ', '\t', '\n', '\r', 11 as char, 12 as char];
  }

  lemma PrefixStarts(prefix: string, pattern: string, read: bool, write: bool)
    requires Prefix(prefix, read, write) && '\0' !in pattern
    ensures var op := prefix + pattern;
            && op != "" && op[0] in {'~', '%'} && '\0' !in op && (op[0] == '~' ==> op[1..] == pattern)
    ensures prefix[0] == '~' ==> prefix == "~"
  {
    assert forall i :: 0 <= i < |prefix| ==> prefix[i] != '\0';
  }

  /** "&c" adds the channel pattern, unless it is there, all channels are granted or it holds white space. */
  lemma ChannelWordMeans(t: Table, s: Selector, channel: string)
    requires channel != "*" && '\0' !in channel
    ensures SetSelector(t, s, "&" + channel) ==
            if s.allChannels then Err(EISDIR)
            else if exists i :: 0 <= i < |channel| && channel[i] in " \t\n\r" + [11 as char, 12 as char] then Err(EINVAL)
            else Ok(s.(channels := if channel in s.channels then s.channels else s.channels + [channel]))
  {
    hide SetSelector, CString, EqNoCase, IsCommandOp, HasSpaces;
    var op := "&" + channel;
    assert op[1..] == channel && '\0' !in op;
    PlainWordOfSelector(t, s, op);
    SymbolIsNoWord(op);
    NotACommand(op);
    StarOnly(op, '&');
    SpacesAre(channel);
  }
}
