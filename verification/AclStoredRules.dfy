/**
 A selector with its retained rules as the text they are stored in, and the replay of that text.

 While the rule words hold no white space and no quotes the text is that of the list of rules, and describing the
 selector never aborts. A single such character in a first-arg is accepted, and can make it abort.
 */
module AclStoredRules {
  import opened AclText
  import opened AclCommands
  import opened AclSelector
  import opened AclReplay
  import opened AclUser
  import opened AclUserInvariant
  import opened AclSplitArgs
  import opened AclRuleText

  /** The list of rules in `selector` is empty; they are in `text`. */
  datatype Stored = Stored(selector: Selector, text: string)

  function WithoutList(s: Selector): Selector {
    s.(commands := s.commands.(rules := []))
  }

  function StoredOf(s: Selector): Stored {
    Stored(WithoutList(s), RulesText(s.commands.rules))
  }

  /** What a word that retains `added` makes of the text. */
  function NewText(text: string, added: seq<Rule>, word: string): string {
    if IsAlias(word) then "" else if added == [] then text else UpdateText(text, added[0])
  }

  /** ACLSetSelector. */
  function SetStored(t: Table, x: Stored, op: string): Result<Stored> {
    match SetSelector(t, WithoutList(x.selector), op)
    case Err(e) => Err(e)
    case Ok(s) => Ok(Stored(WithoutList(s), NewText(x.text, s.commands.rules, CString(op))))
  }

  /** Any sequence of ACLSetSelector calls. */
  function SetStoredAll(t: Table, x: Stored, ops: seq<string>): Stored
    decreases |ops|
  {
    if ops == [] then x
    else
      var r := SetStored(t, x, ops[0]);
      SetStoredAll(t, if r.Ok? then r.value else x, ops[1..])
  }

  // ---- the replay of the text ----

  /** A word as ACLSetSelector sees it when it is given without its length: the NUL at its end is not left out. */
  function WithNul(word: string): string {
    CString(word) + "\0"
  }

  function ReplayWords(t: Table, x: Stored, words: seq<string>): Result<Stored>
    decreases |words|
  {
    if words == [] then Ok(x)
    else
      match SetStored(t, x, WithNul(words[0]))
      case Err(e) => Err(e)
      case Ok(y) => ReplayWords(t, y, words[1..])
  }

  /** The fake selector of ACLDescribeSelectorCommandRules. */
  function FakeSelector(pubsubDefault: bool, all: bool): Stored {
    Stored(NewSelector(false, pubsubDefault).(commands := Base(all)), "")
  }

  /** The text splits, each of its words is accepted by the fake selector, and the bitmaps come out equal. */
  predicate Sane(t: Table, pubsubDefault: bool, x: Stored) {
    var argv := SplitArgs(x.text);
    argv.Some?
    && var r := ReplayWords(t, FakeSelector(pubsubDefault, RESERVED_BIT in x.selector.commands.bits), argv.value);
       r.Ok? && r.value.selector.commands.bits == x.selector.commands.bits
  }

  /** The text ACLDescribeSelectorCommandRules returns when it does not abort. */
  function DescribeText(x: Stored): string {
    (if RESERVED_BIT in x.selector.commands.bits then "+@all" else "-@all") + if x.text == "" then "" else " " + x.text
  }

  lemma SpaceTrimmed(head: string, text: string)
    ensures var all := (head + " ") + text + " ";
            |all| > 0 && all[..|all| - 1] == head + (" " + text)
    ensures (head + " ")[..|head|] == head
  {}

  /** The text as it is put together: a space behind each part, and the last one trimmed. */
  lemma DescribeIs(x: Stored)
    ensures var all := (if RESERVED_BIT in x.selector.commands.bits then "+@all " else "-@all ")
                     + (if x.text != "" then x.text + " " else "");
            |all| > 0 && all[..|all| - 1] == DescribeText(x)
  {
    var head := if RESERVED_BIT in x.selector.commands.bits then "+@all" else "-@all";
    SpaceTrimmed(head, x.text);
    var start := if RESERVED_BIT in x.selector.commands.bits then "+@all " else "-@all ";
    assert start == head + " ";
    if x.text == "" {
      assert start + "" == start;
    } else {
      assert start + (x.text + " ") == (head + " ") + x.text + " ";
    }
  }

  lemma DescribesAlike(s: Selector)
    ensures DescribeText(StoredOf(s)) == DescribeCommandRules(s.commands)
  {
    hide RulesText, DescribeText;
    DescribeIs(StoredOf(s));
  }

  // ---- clean words ----

  /** No rule name holds white space, a quote or a NUL. */
  predicate Quiet(rules: seq<Rule>) {
    forall i :: 0 <= i < |rules| ==> NoSpecial(rules[i].name)
  }

  /** A rule word holds no white space and no quotes; other words may. */
  predicate CleanOp(op: string) {
    var word := CString(op);
    word != "" && (word[0] == '+' || word[0] == '-') ==> NoSpecial(word)
  }

  predicate CleanOps(ops: seq<string>) {
    forall i :: 0 <= i < |ops| ==> CleanOp(ops[i])
  }

  lemma QuietIsClean(rules: seq<Rule>)
    requires Quiet(rules)
    ensures Clean(rules)
  {
    forall i | 0 <= i < |rules| ensures ' ' !in rules[i].name && '\0' !in rules[i].name {
      assert NoSpecial(rules[i].name);
    }
  }

  lemma RuleIsPlain(r: Rule)
    ensures Plain(r.Text()) <==> NoSpecial(r.name)
  {
    assert forall i :: 0 <= i < |r.name| ==> r.Text()[i + 1] == r.name[i];
  }

  lemma QuietIsPlain(rules: seq<Rule>)
    ensures Quiet(rules) <==> AllPlain(RuleTexts(rules))
  {
    hide Plain, NoSpecial;
    forall i | 0 <= i < |rules| ensures Plain(RuleTexts(rules)[i]) <==> NoSpecial(rules[i].name) {
      RuleIsPlain(rules[i]);
    }
  }

  lemma KeptIsQuiet(rules: seq<Rule>, added: string)
    requires Quiet(rules)
    ensures Quiet(DropSuperseded(rules, added))
  {
    hide NoSpecial, Supersedes;
    DropKeepsMembers(rules, added);
  }

  lemma LowerKeepsSpecial(s: string)
    ensures NoSpecial(Lower(s)) <==> NoSpecial(s)
  {
    assert forall i :: 0 <= i < |s| ==> (Special(Lower(s)[i]) <==> Special(s[i]));
  }

  /** The name of the rule that a word retains is free of special characters exactly if the word is. */
  lemma RuleOfWord(t: Table, word: string, c: RuleChange)
    requires ValidTable(t) && word != "" && (word[0] == '+' || word[0] == '-') && ParseRule(t, word) == Ok(c)
    ensures NoSpecial(c.rule.name) <==> NoSpecial(word)
    ensures '\0' !in word ==> '\0' !in c.rule.name
  {
    hide ParseRule, ValidTable;
    RuleNameIsLower(t, word, c);
    LowerKeepsSpecial(word[1..]);
    LowerKeeps(word[1..], '\0');
    assert forall i :: 0 < i < |word| ==> word[i] == word[1..][i - 1];
  }

  // ---- the list and the text ----

  /** How an accepted word changes a selector, whatever rules are retained. */
  lemma CommandsIgnoreRules(t: Table, p: CommandPerms, word: string)
    requires IsCommandOp(word)
    ensures var r, q := SetCommands(t, p, word), SetCommands(t, p.(rules := []), word);
            match q
            case Err(e) => r == Err(e)
            case Ok(b) => r.Ok? && r.value.(rules := []) == b.(rules := [])
    ensures IsAlias(word) ==> SetCommands(t, p, word).Ok? && SetCommands(t, p, word).value.rules == []
    ensures !IsAlias(word) && SetCommands(t, p, word).Ok? ==>
              && word != "" && (word[0] == '+' || word[0] == '-') && ParseRule(t, word).Ok?
              && var c := ParseRule(t, word).value;
                 && SetCommands(t, p, word).value.rules == DropSuperseded(p.rules, c.rule.name) + [c.rule]
                 && SetCommands(t, p.(rules := []), word).value.rules == [c.rule]
  {
    hide ParseRule, EqNoCase, Supersedes, InBitmap;
    if !IsAlias(word) {
      WordsOfCommands(word);
      if ParseRule(t, word).Ok? {
        EffectIgnoresRules(p, ParseRule(t, word).value.effect);
      }
    }
  }

  lemma EffectIgnoresRules(p: CommandPerms, e: Effect)
    ensures ApplyEffect(p, e).(rules := []) == ApplyEffect(p.(rules := []), e)
  {}

  lemma PlainPartsIgnoreRules(t: Table, s: Selector, op: string, word: string)
    requires !IsCommandOp(word)
    ensures var r, q := SetSelectorWord(t, s, op, word), SetSelectorWord(t, WithoutList(s), op, word);
            match q
            case Err(e) => r == Err(e)
            case Ok(b) => r.Ok? && WithoutList(r.value) == WithoutList(b)
                          && r.value.commands == s.commands && b.commands.rules == []
  {
    hide EqNoCase, IsCommandOp, ParseKeyPattern, AddKeyPattern, HasSpaces;
    var u := WithoutList(s);
    var r, q := SetSelectorWord(t, s, op, word), SetSelectorWord(t, u, op, word);
    assert u.allKeys == s.allKeys && u.allChannels == s.allChannels && u.channels == s.channels && u.patterns == s.patterns;
    assert q.Ok? ==> r == Ok(q.value.(commands := s.commands)) && q.value.commands == u.commands;
  }

  /** What ACLSetSelector makes of a word, without regard to the retained rules. */
  lemma SelectorIgnoresRules(t: Table, s: Selector, op: string)
    ensures var r, q := SetSelector(t, s, op), SetSelector(t, WithoutList(s), op);
            match q
            case Err(e) => r == Err(e)
            case Ok(b) =>
              && r.Ok? && WithoutList(r.value) == WithoutList(b)
              && if IsCommandOp(CString(op)) then
                   && SetCommands(t, s.commands, CString(op)).Ok?
                   && SetCommands(t, s.commands.(rules := []), CString(op)).Ok?
                   && r.value.commands == SetCommands(t, s.commands, CString(op)).value
                   && b.commands == SetCommands(t, s.commands.(rules := []), CString(op)).value
                 else r.value.commands == s.commands && b.commands.rules == []
  {
    hide CString, EqNoCase, IsCommandOp, SetCommands, ParseKeyPattern, AddKeyPattern, HasSpaces, SetSelectorWord;
    var word := CString(op);
    if IsCommandOp(word) {
      CommandWord(t, s, op, word);
      CommandWord(t, WithoutList(s), op, word);
      CommandsIgnoreRules(t, s.commands, word);
    } else {
      PlainPartsIgnoreRules(t, s, op, word);
    }
  }

  lemma CommandWord(t: Table, s: Selector, op: string, word: string)
    requires IsCommandOp(word)
    ensures SetSelectorWord(t, s, op, word) ==
            match SetCommands(t, s.commands, word)
            case Err(e) => Err(e)
            case Ok(p) => Ok(s.(commands := p))
  {
    hide EqNoCase, IsCommandOp, SetCommands;
    WordsAreApart(word);
  }

  lemma WordsAreApart(word: string)
    ensures IsCommandOp(word) ==>
              && !EqNoCase(word, "allkeys") && !EqNoCase(word, "~*") && !EqNoCase(word, "resetkeys")
              && !EqNoCase(word, "allchannels") && !EqNoCase(word, "&*") && !EqNoCase(word, "resetchannels")
    ensures IsAlias(word) ==> IsCommandOp(word)
  {
    DifferAt("allcommands", "allchannels", 4);
    if word != "" && (word[0] == '+' || word[0] == '-') {
      DifferAt(word, "allkeys", 0);
      DifferAt(word, "~*", 0);
      DifferAt(word, "resetkeys", 0);
      DifferAt(word, "allchannels", 0);
      DifferAt(word, "&*", 0);
      DifferAt(word, "resetchannels", 0);
    }
    if IsAlias(word) {
      AliasIsCommand(word);
    }
  }

  lemma AliasIsCommand(word: string)
    requires IsAlias(word)
    ensures IsCommandOp(word)
  {
    if EqNoCase(word, "+@all") || EqNoCase(word, "-@all") {
      assert |word| == 5 && LowerChar(word[0]) == Lower(word)[0];
    }
  }

  /** A clean word does to the text what it does to the list, and keeps the rule names quiet. */
  lemma CleanStep(t: Table, s: Selector, op: string)
    requires ValidTable(t) && Quiet(s.commands.rules) && CleanOp(op)
    ensures match SetSelector(t, s, op)
            case Err(e) => SetStored(t, StoredOf(s), op) == Err(e)
            case Ok(s') => SetStored(t, StoredOf(s), op) == Ok(StoredOf(s')) && Quiet(s'.commands.rules)
  {
    hide SetSelector, SetCommands, ParseRule, IsAlias, IsCommandOp, CString, RulesText, UpdateText, Quiet, ValidTable,
      DropSuperseded, NoSpecial;
    var word := CString(op);
    assert WithoutList(WithoutList(s)) == WithoutList(s);
    SelectorIgnoresRules(t, s, op);
    WordsAreApart(word);
    if SetSelector(t, s, op).Ok? && IsCommandOp(word) {
      CommandsIgnoreRules(t, s.commands, word);
      if IsAlias(word) {
        NoRules();
      } else {
        var r := ParseRule(t, word).value.rule;
        RuleOfWord(t, word, ParseRule(t, word).value);
        QuietIsClean(s.commands.rules);
        UpdateOfRules(s.commands.rules, r);
        KeptIsQuiet(s.commands.rules, r.name);
        QuietAppend(DropSuperseded(s.commands.rules, r.name), r);
      }
    }
  }

  lemma NoRules()
    ensures RulesText([]) == "" && Quiet([])
  {}

  lemma QuietAppend(rules: seq<Rule>, r: Rule)
    ensures Quiet(rules + [r]) <==> Quiet(rules) && NoSpecial(r.name)
  {
    hide NoSpecial;
    var all := rules + [r];
    assert all[|rules|] == r;
    assert forall i :: 0 <= i < |rules| ==> all[i] == rules[i];
  }

  /** Over any run of clean words the stored text is the text of the list of rules. */
  lemma {:induction false} CleanRun(t: Table, s: Selector, ops: seq<string>)
    requires ValidTable(t) && Quiet(s.commands.rules) && CleanOps(ops)
    ensures SetStoredAll(t, StoredOf(s), ops) == StoredOf(SetAll(t, s, ops)) && Quiet(SetAll(t, s, ops).commands.rules)
    decreases |ops|
  {
    hide SetSelector, SetStored, StoredOf, Quiet, CleanOp, ValidTable;
    if ops != [] {
      CleanStep(t, s, ops[0]);
      var r := SetSelector(t, s, ops[0]);
      CleanRun(t, if r.Ok? then r.value else s, ops[1..]);
    }
  }

  // ---- describing never aborts on clean words ----

  lemma RuleWordIsClean(r: Rule)
    requires NoSpecial(r.name)
    ensures '\0' !in r.name && CString(WithNul(r.Text())) == r.Text() && CleanOp(WithNul(r.Text()))
  {
    var text := r.Text();
    assert forall i :: 0 <= i < |r.name| ==> text[i + 1] == r.name[i];
    assert '\0' !in text;
    IndexOfUnique(text + "\0", '\0', |text|);
    assert (text + "\0")[..|text|] == text;
  }

  /** A rule word given to a selector, with or without its length, goes to the commands. */
  lemma RuleWordApplies(t: Table, s: Selector, r: Rule)
    requires NoSpecial(r.name)
    ensures SetSelector(t, s, WithNul(r.Text())) ==
            match SetCommands(t, s.commands, r.Text())
            case Err(e) => Err(e)
            case Ok(p) => Ok(s.(commands := p))
  {
    hide SetCommands, CString, WithNul, EqNoCase, IsCommandOp;
    RuleWordIsClean(r);
    RuleTextIsCommand(r);
    WordsAreApart(r.Text());
  }

  lemma RuleTextIsCommand(r: Rule)
    ensures IsCommandOp(r.Text())
  {
    hide EqNoCase;
  }

  /** Replaying the words of quiet rules is replaying the rules. */
  lemma {:induction false} ReplayOfRules(t: Table, s: Selector, rules: seq<Rule>)
    requires ValidTable(t) && Quiet(s.commands.rules) && Quiet(rules) && Replay(t, s.commands, rules).Ok?
    ensures ReplayWords(t, StoredOf(s), RuleTexts(rules)) ==
            Ok(StoredOf(s.(commands := Replay(t, s.commands, rules).value)))
    decreases |rules|
  {
    hide SetSelector, SetStored, SetCommands, ValidTable, RulesText, NoSpecial, WithNul, CleanOp;
    if rules == [] {
      assert s.(commands := s.commands) == s;
    } else {
      var r := rules[0];
      RuleWordIsClean(r);
      RuleWordApplies(t, s, r);
      CleanStep(t, s, WithNul(r.Text()));
      var next := s.(commands := SetCommands(t, s.commands, r.Text()).value);
      assert RuleTexts(rules)[0] == r.Text() && RuleTexts(rules)[1..] == RuleTexts(rules[1..]);
      ReplayOfRules(t, next, rules[1..]);
    }
  }

  /** A consistent selector with quiet rule names is described without aborting. */
  lemma QuietIsSane(t: Table, pubsubDefault: bool, s: Selector)
    requires ValidTable(t) && Consistent(t, s.commands) && Quiet(s.commands.rules)
    ensures Sane(t, pubsubDefault, StoredOf(s))
  {
    hide Consistent, ValidTable, RulesText, ReplayWords, Base, Replay, Quiet;
    var p := s.commands;
    var fake := NewSelector(false, pubsubDefault).(commands := StartOf(p));
    BaseHasNoRules(RESERVED_BIT in p.bits);
    NoRules();
    ReplayReproduces(t, p);
    QuietIsPlain(p.rules);
    PlainWordsSurvive(RuleTexts(p.rules));
    RulesTextIs(p.rules);
    ReplayOfRules(t, fake, p.rules);
    assert StoredOf(fake) == FakeSelector(pubsubDefault, RESERVED_BIT in p.bits);
  }

  lemma BaseHasNoRules(all: bool)
    ensures Base(all).rules == []
  {}

  lemma RulesTextIs(rules: seq<Rule>)
    ensures RulesText(rules) == Join(RuleTexts(rules), ' ')
  {}

  /**
   Whatever clean words a new selector was given, its text is that of the list of its rules, and describing it never
   aborts.
   */
  lemma EveryCleanRunIsSane(t: Table, root: bool, pubsubDefault: bool, ops: seq<string>)
    requires ValidTable(t) && CleanOps(ops)
    ensures var n := NewSelector(root, pubsubDefault);
            var x, s := SetStoredAll(t, StoredOf(n), ops), SetAll(t, n, ops);
            x == StoredOf(s) && Sane(t, pubsubDefault, x) && DescribeText(x) == DescribeCommandRules(s.commands)
  {
    hide SetStoredAll, SetAll, Sane, StoredOf, Consistent, ValidTable, CleanOps, Quiet, DescribeText, DescribeCommandRules,
      Replay;
    var n := NewSelector(root, pubsubDefault);
    NoRules();
    BaseIsConsistent(t, false);
    CleanRun(t, n, ops);
    EverySelectorReplays(t, n, ops);
    QuietIsSane(t, pubsubDefault, SetAll(t, n, ops));
    DescribesAlike(SetAll(t, n, ops));
  }

  // ---- one word that is not clean ----

  /** The text of rules splits back into them exactly if no rule name holds white space that ends a word, or a quote. */
  lemma RulesSplitBackIff(rules: seq<Rule>)
    ensures SplitArgs(RulesText(rules)) == Some(RuleTexts(rules)) <==> Quiet(rules)
  {
    hide SplitArgs, AllPlain, Quiet, RulesText;
    QuietIsPlain(rules);
    RulesTextIs(rules);
    SplitBackIff(RuleTexts(rules));
  }

  /**
   On quiet rules, the text that an accepted rule word leaves splits back into the retained rules exactly if the word
   holds no white space and no quote.
   */
  lemma SplitsBackIff(t: Table, s: Selector, op: string, s': Selector)
    requires ValidTable(t) && Quiet(s.commands.rules) && SetSelector(t, s, op) == Ok(s')
    requires IsCommandOp(CString(op)) && !IsAlias(CString(op))
    ensures SetStored(t, StoredOf(s), op) == Ok(StoredOf(s'))
    ensures SplitArgs(StoredOf(s').text) == Some(RuleTexts(s'.commands.rules)) <==> NoSpecial(CString(op))
  {
    hide SetSelector, SetCommands, ParseRule, IsAlias, IsCommandOp, CString, RulesText, UpdateText, Quiet, ValidTable,
      DropSuperseded, NoSpecial, SplitArgs;
    var word, rules := CString(op), s.commands.rules;
    assert WithoutList(WithoutList(s)) == WithoutList(s);
    SelectorIgnoresRules(t, s, op);
    CommandsIgnoreRules(t, s.commands, word);
    var r := ParseRule(t, word).value.rule;
    RuleOfWord(t, word, ParseRule(t, word).value);
    QuietIsClean(rules);
    UpdateOfRules(rules, r);
    KeptIsQuiet(rules, r.name);
    QuietAppend(DropSuperseded(rules, r.name), r);
    RulesSplitBackIff(s'.commands.rules);
  }

  // ---- recomputing the bitmap from the text ----

  function ApplyWords(t: Table, x: Stored, words: seq<string>): Result<Stored>
    decreases |words|
  {
    if words == [] then Ok(x)
    else
      match SetStored(t, x, words[0])
      case Err(e) => Err(e)
      case Ok(y) => ApplyWords(t, y, words[1..])
  }

  /** ACLRecomputeCommandBitsFromCommandRulesAllUsers, for one selector; None when it aborts. */
  function Recomputed(t: Table, x: Stored): Option<Stored> {
    match SplitArgs(x.text)
    case None => None
    case Some(argv) =>
      match SetStored(t, x, if RESERVED_BIT in x.selector.commands.bits then "+@all" else "-@all")
      case Err(_) => None
      case Ok(start) => match ApplyWords(t, start, argv) case Err(_) => None case Ok(y) => Some(y)
  }

  lemma CleanRuleText(r: Rule)
    requires NoSpecial(r.name)
    ensures '\0' !in r.Text() && CString(r.Text()) == r.Text() && CleanOp(r.Text())
  {
    assert forall i :: 0 <= i < |r.name| ==> r.Text()[i + 1] == r.name[i];
  }

  lemma RuleTextSets(t: Table, s: Selector, r: Rule)
    requires NoSpecial(r.name)
    ensures SetSelector(t, s, r.Text()) ==
            match SetCommands(t, s.commands, r.Text())
            case Err(e) => Err(e)
            case Ok(p) => Ok(s.(commands := p))
  {
    hide SetCommands, CString, EqNoCase, IsCommandOp;
    CleanRuleText(r);
    RuleTextIsCommand(r);
    WordsAreApart(r.Text());
  }

  lemma {:induction false} ApplyRules(t: Table, s: Selector, rules: seq<Rule>)
    requires ValidTable(t) && Quiet(s.commands.rules) && Quiet(rules) && Replay(t, s.commands, rules).Ok?
    ensures ApplyWords(t, StoredOf(s), RuleTexts(rules)) ==
            Ok(StoredOf(s.(commands := Replay(t, s.commands, rules).value)))
    decreases |rules|
  {
    hide SetSelector, SetStored, SetCommands, ValidTable, RulesText, NoSpecial, CleanOp;
    if rules == [] {
      assert s.(commands := s.commands) == s;
    } else {
      var r := rules[0];
      CleanRuleText(r);
      RuleTextSets(t, s, r);
      CleanStep(t, s, r.Text());
      var next := s.(commands := SetCommands(t, s.commands, r.Text()).value);
      assert RuleTexts(rules)[0] == r.Text() && RuleTexts(rules)[1..] == RuleTexts(rules[1..]);
      ApplyRules(t, next, rules[1..]);
    }
  }

  lemma BaseWord(t: Table, s: Selector, all: bool)
    ensures SetStored(t, StoredOf(s), if all then "+@all" else "-@all") == Ok(StoredOf(s.(commands := Base(all))))
    ensures Quiet(Base(all).rules)
  {
    hide SetSelector, CString, RulesText;
    var word := if all then "+@all" else "-@all";
    assert '\0' !in word;
    PlainWordOfSelector(t, WithoutList(s), word);
    DifferAt("-@all", "+@all", 0);
    WordsAreApart(word);
    NoRules();
  }

  /** Recomputing a consistent selector with quiet rule names from its text changes no permission and no rule. */
  lemma RecomputeReproduces(t: Table, s: Selector)
    requires ValidTable(t) && Consistent(t, s.commands) && Quiet(s.commands.rules)
    ensures var x := Recomputed(t, StoredOf(s));
            && x.Some? && x.value.text == StoredOf(s).text
            && x.value.selector.(commands := NoCommands) == s.(commands := NoCommands)
            && AccessOf(x.value.selector.commands) == AccessOf(s.commands)
  {
    hide Consistent, ValidTable, RulesText, ApplyWords, Base, Replay, Quiet, SetStored, ArgsOf;
    var p := s.commands;
    BaseWord(t, s, RESERVED_BIT in p.bits);
    ReplayReproduces(t, p);
    QuietIsPlain(p.rules);
    PlainWordsSurvive(RuleTexts(p.rules));
    RulesTextIs(p.rules);
    ApplyRules(t, s.(commands := StartOf(p)), p.rules);
  }

  // ---- words that are not clean can make describing abort ----

  /** A first-arg for command `name`. */
  function ArgWord(name: string, arg: string): string {
    "+" + name + "|" + arg
  }

  lemma ArgWordParts(name: string, arg: string)
    requires '|' !in name && '|' !in arg
    ensures var body := ArgWord(name, arg)[1..];
            && body == name + "|" + arg && LastIndexOf(body, '|') == |name|
            && body[..|name|] == name && body[|name| + 1..] == arg
  {
    var body := name + "|" + arg;
    assert ArgWord(name, arg)[1..] == body;
    assert body[|name|] == '|' && body[|name| + 1..] == arg;
    assert forall j :: |name| < j < |body| ==> body[j] == arg[j - |name| - 1];
    var k := LastIndexOf(body, '|');
    assert k < |body| ==> body[k] == '|';
  }

  lemma LookupPlainName(t: Table, name: string)
    requires ValidTable(t) && name in t.commands
    ensures '|' !in name && name != "" && LookupCommand(t, name) == Some(TopCommand(t.commands[name]))
  {
    assert ValidTop(name, t.commands[name]);
    IndexOfUnique(name, '|', |name|);
    assert name[..|name|] == name;
  }

  /** A command that has no subcommands, with a name like those of the commands of the server. */
  predicate TakesFirstArgs(t: Table, name: string) {
    name in t.commands && t.commands[name].subs == map[] && NoSpecial(name) && (name != "" ==> name[0] != '@')
  }

  predicate Arg(arg: string) {
    arg != "" && '|' !in arg && '\0' !in arg
  }

  /** The code accepts such a first-arg, whatever is in it. */
  lemma ArgWordIsAccepted(t: Table, name: string, arg: string)
    requires ValidTable(t) && TakesFirstArgs(t, name) && Arg(arg)
    ensures var op := ArgWord(name, arg);
            && op[0] == '+' && !IsAlias(op) && '\0' !in op && ParseRule(t, op).Ok?
            && ParseRule(t, op).value.rule == Rule(true, Lower(op[1..])) && ParseRule(t, op).value.effect.bits == {}
            && ParseRule(t, op).value.effect.allow
  {
    hide LastIndexOf, LookupCommand, ValidTable, Lower;
    var op, body := ArgWord(name, arg), ArgWord(name, arg)[1..];
    LookupPlainName(t, name);
    ArgWordParts(name, arg);
    assert body[0] == name[0] && body[|name|] == '|';
    NoAlias(op);
    assert forall i :: 0 <= i < |name| ==> !Special(name[i]);
    assert ParseRule(t, op) == ParseBarRule(t, body);
  }

  lemma NoAlias(op: string)
    requires |op| > 1 && op[0] == '+' && op[1] != '@'
    ensures !IsAlias(op)
  {
    DifferAt(op, "+@all", 1);
    DifferAt(op, "allcommands", 0);
    DifferAt(op, "nocommands", 0);
    DifferAt(op, "-@all", 0);
  }

  /** Text behind a name that is lower case stays what it is. */
  lemma LowerArgWord(name: string, arg: string)
    requires Lower(name) == name && Lower(arg) == arg
    ensures Lower(ArgWord(name, arg)) == ArgWord(name, arg)
  {
    var op := ArgWord(name, arg);
    assert forall i :: 0 <= i < |name| ==> Lower(name)[i] == name[i] == op[i + 1];
    assert forall i :: 0 <= i < |arg| ==> Lower(arg)[i] == arg[i] == op[|name| + 2 + i];
    assert forall i :: 0 <= i < |op| ==> LowerChar(op[i]) == op[i];
  }

  /** A first-arg with the character `c` in it. */
  function Odd(c: char): string {
    "a" + [c] + "("
  }

  lemma LowerOdd(c: char)
    requires Special(c)
    ensures Lower(Odd(c)) == Odd(c)
  {}

  /** Splitting the word: white space cuts off "(", a quote is never closed. */
  lemma OddWordSplits(name: string, c: char)
    requires NoSpecial(name) && Special(c) && c != '\0'
    ensures SplitArgs(ArgWord(name, Odd(c))) == if EndsWord(c) then Some(["+" + name + "|a", "("]) else None
  {
    hide Word, Words;
    var head := "+" + name + "|a";
    assert forall i :: 0 <= i < |name| ==> head[i + 1] == name[i];
    assert ArgWord(name, Odd(c)) == head + ([c] + "(");
    BareWord(head, [c] + "(", "");
    assert "" + head == head;
    TailSplits(head, c);
    WordsStart(head, [c] + "(");
    LastParenthesis();
    assert [head] + ["("] == [head, "("];
  }

  lemma TailSplits(current: string, c: char)
    requires Special(c) && c != '\0'
    ensures Word([c] + "(", Bare, current) == if EndsWord(c) then Some((current, "(")) else None
  {
    var s := [c] + "(";
    assert s[1..] == "(" && "("[1..] == "";
    if !EndsWord(c) {
      var mode := if c == '"' then Double else Single;
      assert TurnAt(s, Bare) == More("", mode, 1);
      assert TurnAt("(", mode) == More("(", mode, 1);
      assert TurnAt("", mode) == Bad;
    }
  }

  lemma WordsStart(head: string, tail: string)
    requires head != "" && !Special(head[0]) && !IsSpace(head[0])
    ensures Words(head + tail) ==
            match Word(head + tail, Bare, "")
            case None => None
            case Some((word, rest)) => match Words(rest) case None => None case Some(others) => Some([word] + others)
  {
    hide Word;
    assert (head + tail)[0] == head[0];
    assert SkipBlanks(head + tail) == head + tail;
    if Word(head + tail, Bare, "").Some? {
      WordShrinks(head + tail, Bare, "");
    }
  }

  lemma LastParenthesis()
    ensures Words("(") == Some(["("])
  {
    assert Plain("(");
    PlainWordsSurvive(["("]);
  }

  /** "(" is no word that a selector takes. */
  lemma ParenthesisIsRefused(t: Table, x: Stored)
    ensures SetStored(t, x, WithNul("(")) == Err(EINVAL)
  {
    hide EqNoCase;
    var op := WithNul("(");
    IndexOfUnique("(\0", '\0', 1);
    assert op == "(\0" && CString(op) == "(";
    DifferAt("(", "allkeys", 0);
    DifferAt("(", "~*", 0);
    DifferAt("(", "resetkeys", 0);
    DifferAt("(", "allchannels", 0);
    DifferAt("(", "&*", 0);
    DifferAt("(", "resetchannels", 0);
    DifferAt("(", "allcommands", 0);
    DifferAt("(", "nocommands", 0);
  }

  /** A word that retains a rule, given to a selector without rules. */
  lemma AcceptedWord(t: Table, n: Selector, op: string)
    requires n.commands.rules == [] && op != "" && op[0] == '+' && '\0' !in op && !IsAlias(op) && ParseRule(t, op).Ok?
    ensures CString(op) == op && IsCommandOp(op)
    ensures var c, r := ParseRule(t, op).value, SetSelector(t, n, op);
            && r.Ok? && r.value.commands.rules == [c.rule]
            && (c.effect.allow && c.effect.bits == {} ==> r.value.commands.bits == n.commands.bits)
  {
    hide ParseRule, CString, EqNoCase;
    WordsAreApart(op);
    assert DropSuperseded([], ParseRule(t, op).value.rule.name) == [];
  }

  lemma OneRuleText(r: Rule)
    ensures RulesText([r]) == r.Text()
  {
    assert RuleTexts([r]) == [r.Text()];
  }

  lemma LowerText(op: string)
    requires op != "" && op[0] == '+' && Lower(op) == op
    ensures "+" + Lower(op[1..]) == op
  {
    LowerAt(op, 1);
    assert op == "+" + op[1..];
  }

  lemma LowerName(t: Table, name: string)
    requires ValidTable(t) && name in t.commands
    ensures Lower(name) == name
  {
    assert ValidTop(name, t.commands[name]);
  }

  /** A selector without rules after one such word. */
  lemma ArgWordStored(t: Table, n: Selector, name: string, arg: string)
    requires ValidTable(t) && TakesFirstArgs(t, name) && Arg(arg) && n.commands.rules == []
    ensures var op := ArgWord(name, arg);
            var r := SetSelector(t, n, op);
            && r.Ok? && SetStored(t, StoredOf(n), op) == Ok(StoredOf(r.value))
            && StoredOf(r.value).text == "+" + Lower(op[1..]) && r.value.commands.bits == n.commands.bits
  {
    hide SetSelector, SetCommands, ParseRule, IsAlias, IsCommandOp, CString, RulesText, ValidTable, SplitArgs, SetStored,
      NoSpecial, Lower;
    var op := ArgWord(name, arg);
    ArgWordIsAccepted(t, name, arg);
    AcceptedWord(t, n, op);
    NoRules();
    SplitsBackIff(t, n, op, SetSelector(t, n, op).value);
    OneRuleText(Rule(true, Lower(op[1..])));
  }

  /** With white space or a quote in it, describing the selector aborts. */
  lemma SpecialAborts(t: Table, pubsubDefault: bool, name: string, c: char, x: Stored)
    requires ValidTable(t) && TakesFirstArgs(t, name) && Special(c) && c != '\0'
    requires x.text == "+" + Lower(ArgWord(name, Odd(c))[1..])
    ensures !Sane(t, pubsubDefault, x)
  {
    hide SetStored, SplitArgs, NoSpecial, Special, ValidTable, Lower, ReplayWords, Odd;
    var op := ArgWord(name, Odd(c));
    LowerName(t, name);
    LowerOdd(c);
    LowerArgWord(name, Odd(c));
    LowerText(op);
    OddWordSplits(name, c);
    if EndsWord(c) {
      SecondIsRefused(t, FakeSelector(pubsubDefault, RESERVED_BIT in x.selector.commands.bits), "+" + name + "|a");
    }
  }

  lemma SecondIsRefused(t: Table, x: Stored, word: string)
    ensures ReplayWords(t, x, [word, "("]).Err?
  {
    hide SetStored, WithNul;
    var r := SetStored(t, x, WithNul(word));
    assert [word, "("][1..] == ["("];
    if r.Ok? {
      ParenthesisIsRefused(t, r.value);
    }
  }

  lemma ArgWordIsClean(name: string, arg: string)
    requires NoSpecial(name) && NoSpecial(arg)
    ensures CleanOp(ArgWord(name, arg))
  {
    var op := ArgWord(name, arg);
    assert forall i :: 0 <= i < |name| ==> op[i + 1] == name[i];
    assert forall i :: 0 <= i < |arg| ==> op[|name| + 2 + i] == arg[i];
    assert NoSpecial(op);
    assert '\0' !in op;
  }

  lemma OddIsArg(c: char)
    requires c != '|' && c != '\0'
    ensures Arg(Odd(c)) && (!Special(c) ==> NoSpecial(Odd(c)))
  {}

  /**
   A first-arg with the character `c` in it is accepted, whatever the character. Describing the selector then aborts
   exactly if `c` is white space that ends a word, or a quote.
   */
  lemma OddWordIsSaneIff(t: Table, root: bool, pubsubDefault: bool, name: string, c: char)
    requires ValidTable(t) && TakesFirstArgs(t, name) && c != '|' && c != '\0'
    ensures var r := SetStored(t, StoredOf(NewSelector(root, pubsubDefault)), ArgWord(name, Odd(c)));
            r.Ok? && (Sane(t, pubsubDefault, r.value) <==> !Special(c))
  {
    hide SetStored, StoredOf, SetSelector, Sane, ValidTable, CleanOp, Consistent, Special, NoSpecial, Lower, ArgWord, Odd;
    var n, op := NewSelector(root, pubsubDefault), ArgWord(name, Odd(c));
    OddIsArg(c);
    ArgWordStored(t, n, name, Odd(c));
    var s := SetSelector(t, n, op).value;
    if Special(c) {
      SpecialAborts(t, pubsubDefault, name, c, StoredOf(s));
    } else {
      ArgWordIsClean(name, Odd(c));
      NoRules();
      CleanStep(t, n, op);
      BaseIsConsistent(t, false);
      SetSelectorKeepsCommands(t, n, op, s);
      QuietIsSane(t, pubsubDefault, s);
    }
  }

  // ---- quotes that are closed are lost without a word ----

  const QUOTED: string := "\"a\""

  lemma QuotedWordSplits(name: string)
    requires NoSpecial(name)
    ensures SplitArgs(ArgWord(name, QUOTED)) == Some([ArgWord(name, "a")])
  {
    hide Word, Words;
    var head := "+" + name + "|";
    assert forall i :: 0 <= i < |name| ==> head[i + 1] == name[i];
    assert ArgWord(name, QUOTED) == head + QUOTED && ArgWord(name, "a") == head + "a";
    BareWord(head, QUOTED, "");
    assert "" + head == head;
    QuotedTail(head);
    WordsStart(head, QUOTED);
    NoWords();
    assert [head + "a"] + [] == [head + "a"];
  }

  lemma QuotedTail(current: string)
    ensures Word(QUOTED, Bare, current) == Some((current + "a", ""))
  {
    assert QUOTED[1..] == "a\"" && "a\""[1..] == "\"" && "\""[1..] == "";
    assert TurnAt(QUOTED, Bare) == More("", Double, 1);
    assert TurnAt("a\"", Double) == More("a", Double, 1);
    assert TurnAt("\"", Double) == Done(1);
    assert current + "" == current;
  }

  lemma QuotedIsArg()
    ensures Arg(QUOTED) && Lower(QUOTED) == QUOTED && Arg("a") && NoSpecial("a") && Lower("a") == "a"
  {}

  lemma SameWordWithNul(t: Table, x: Stored, op: string)
    requires '\0' !in op && op != "" && op[0] == '+'
    ensures SetStored(t, x, WithNul(op)) == SetStored(t, x, op)
  {
    hide EqNoCase, SetCommands;
    IndexOfUnique(op + "\0", '\0', |op|);
    assert (op + "\0")[..|op|] == op;
    WordsAreApart(op);
  }

  /**
   A quoted first-arg is accepted and described with its quotes, and describing does not abort. Recomputing the
   selector from its text drops the quotes.
   */
  lemma QuotesAreDropped(t: Table, root: bool, pubsubDefault: bool, name: string)
    requires ValidTable(t) && TakesFirstArgs(t, name)
    ensures var r := SetStored(t, StoredOf(NewSelector(root, pubsubDefault)), ArgWord(name, QUOTED));
            && r.Ok? && r.value.text == ArgWord(name, QUOTED) && Sane(t, pubsubDefault, r.value)
            && Recomputed(t, r.value).Some? && Recomputed(t, r.value).value.text == ArgWord(name, "a")
  {
    hide SetStored, SetSelector, ValidTable, NoSpecial, Lower, ArgWord, SplitArgs, RulesText, WithNul, Base;
    var n := NewSelector(root, pubsubDefault);
    QuotedIsArg();
    ArgWordStored(t, n, name, QUOTED);
    ArgWordText(t, name, QUOTED);
    ArgWordText(t, name, "a");
    QuotedWordSplits(name);
    var s := SetSelector(t, n, ArgWord(name, QUOTED)).value;
    var all := RESERVED_BIT in s.commands.bits;
    var fake := NewSelector(false, pubsubDefault).(commands := Base(all));
    NewHasNoBits();
    BaseHasNoRules(all);
    NoRules();
    ArgWordStored(t, fake, name, "a");
    ArgWordIsAccepted(t, name, "a");
    SameWordWithNul(t, StoredOf(fake), ArgWord(name, "a"));
    assert FakeSelector(pubsubDefault, all) == StoredOf(fake);
    OneWord(t, StoredOf(fake), ArgWord(name, "a"));
    BaseWord(t, s, all);
    ArgWordStored(t, s.(commands := Base(all)), name, "a");
    OneWord(t, StoredOf(s.(commands := Base(all))), ArgWord(name, "a"));
  }

  lemma NewHasNoBits()
    ensures RESERVED_BIT !in NoCommands.bits && Base(false).bits == {}
  {}

  lemma ArgWordText(t: Table, name: string, arg: string)
    requires ValidTable(t) && name in t.commands && Lower(arg) == arg
    ensures "+" + Lower(ArgWord(name, arg)[1..]) == ArgWord(name, arg)
  {
    LowerName(t, name);
    LowerArgWord(name, arg);
    LowerText(ArgWord(name, arg));
  }

  lemma OneWord(t: Table, x: Stored, word: string)
    ensures ReplayWords(t, x, [word]) == SetStored(t, x, WithNul(word)) && ApplyWords(t, x, [word]) == SetStored(t, x, word)
  {
    hide SetStored, WithNul;
    assert [word][1..] == [];
  }
}
