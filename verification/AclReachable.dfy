/**
 Users as runs of modifiers make them: which modifiers keep a user describable, and one that makes a user that does
 not come back from its description.
 */
module AclReachable {
  import opened AclText
  import opened AclCommands
  import opened AclSelector
  import opened AclReplay
  import opened AclUser
  import opened AclUserInvariant
  import opened AclDescribe
  import opened AclRoundTrip
  import opened AclRoundTripLimit
  import opened AclSplitArgs
  import opened AclStoredRules

  // ---- words of a bracketed selector ----

  predicate Unquoted(s: string) {
    '"' !in s && '\'' !in s
  }

  /** Nothing in the word ends it, opens a quote or closes a selector. */
  predicate Tame(word: string) {
    NoSpecial(word) && ')' !in word
  }

  predicate AllTame(words: seq<string>) {
    forall i :: 0 <= i < |words| ==> Tame(words[i])
  }

  lemma TameMore(current: string, c: char)
    requires Tame(current) && !Special(c) && c != ')'
    ensures Tame(current + [c])
  {}

  /** Without quotes the rest of a word is read, and is made of the characters that are there. */
  lemma {:induction false} UnquotedWord(s: string, current: string)
    requires Unquoted(s) && ')' !in s && Tame(current)
    ensures var r := Word(s, Bare, current);
            r.Some? && Tame(r.value.0) && Unquoted(r.value.1) && ')' !in r.value.1
    decreases |s|
  {
    hide Tame;
    var t := TurnAt(s, Bare);
    if t.More? {
      TameMore(current, s[0]);
      UnquotedWord(s[1..], current + [s[0]]);
    }
  }

  lemma {:induction false} BlanksSkipped(s: string)
    requires Unquoted(s) && ')' !in s
    ensures Unquoted(SkipBlanks(s)) && ')' !in SkipBlanks(s)
    decreases |s|
  {
    if s != "" && IsSpace(s[0]) {
      BlanksSkipped(s[1..]);
    }
  }

  lemma {:induction false} UnquotedWords(s: string)
    requires Unquoted(s) && ')' !in s
    ensures SplitArgs(s).Some? && AllTame(SplitArgs(s).value)
    decreases |s|
  {
    hide Word, Tame, Unquoted;
    var line := SkipBlanks(s);
    BlanksSkipped(s);
    if At(line, 0) != '\0' {
      assert Tame("") by { NothingIsTame(); }
      UnquotedWord(line, "");
      WordShrinks(line, Bare, "");
      UnquotedWords(Word(line, Bare, "").value.1);
    }
  }

  lemma NothingIsTame()
    ensures Tame("")
  {}

  // ---- selectors made of tame words ----

  predicate TamePatterns(patterns: seq<KeyPattern>) {
    forall i :: 0 <= i < |patterns| ==> Tame(patterns[i].pattern)
  }

  predicate TameSelector(s: Selector) {
    && (forall i :: 0 <= i < |s.commands.rules| ==> Tame(s.commands.rules[i].name))
    && TamePatterns(s.patterns)
    && (forall i :: 0 <= i < |s.channels| ==> Tame(s.channels[i]))
  }

  lemma TamePart(word: string, k: nat)
    requires Tame(word) && k <= |word|
    ensures Tame(word[k..])
  {
    assert forall i :: 0 <= i < |word| - k ==> word[k..][i] == word[k + i];
  }

  lemma TameWordIsCString(word: string)
    requires Tame(word)
    ensures '\0' !in word && CString(word) == word
  {
    assert forall i :: 0 <= i < |word| ==> !Special(word[i]);
  }

  lemma TameRule(t: Table, word: string)
    requires ValidTable(t) && Tame(word) && word != "" && (word[0] == '+' || word[0] == '-') && ParseRule(t, word).Ok?
    ensures Tame(ParseRule(t, word).value.rule.name)
  {
    hide ParseRule, ValidTable, Lower;
    var c := ParseRule(t, word).value;
    RuleOfWord(t, word, c);
    RuleNameIsLower(t, word, c);
    TamePart(word, 1);
    LowerKeeps(word[1..], ')');
  }

  lemma {:induction false} TamePatternAdded(patterns: seq<KeyPattern>, p: KeyPattern)
    requires Tame(p.pattern) && TamePatterns(patterns)
    ensures TamePatterns(AddKeyPattern(patterns, p))
  {
    hide Tame;
    if patterns != [] {
      var rest := patterns[1..];
      assert TamePatterns(rest);
      TamePatternAdded(rest, p);
      assert forall i :: 0 < i < |AddKeyPattern(patterns, p)| ==>
               AddKeyPattern(patterns, p)[i] ==
               if patterns[0].pattern == p.pattern then rest[i - 1] else AddKeyPattern(rest, p)[i - 1];
    }
  }

  lemma ParsedIsPart(op: string)
    requires op != "" && ParseKeyPattern(op).Ok?
    ensures exists k :: 0 <= k <= |op| && ParseKeyPattern(op).value.pattern == op[k..]
  {
    hide HasSpaces;
  }

  lemma TameCommands(t: Table, p: CommandPerms, word: string, q: CommandPerms)
    requires ValidTable(t) && Tame(word) && IsCommandOp(word) && SetCommands(t, p, word) == Ok(q)
    requires forall i :: 0 <= i < |p.rules| ==> Tame(p.rules[i].name)
    ensures forall i :: 0 <= i < |q.rules| ==> Tame(q.rules[i].name)
  {
    hide SetCommands, ParseRule, ValidTable, IsAlias, IsCommandOp, Tame, Supersedes;
    CommandsIgnoreRules(t, p, word);
    if !IsAlias(word) {
      TameRule(t, word);
      DropKeepsMembers(p.rules, ParseRule(t, word).value.rule.name);
    }
  }

  /** A tame word keeps a selector tame. */
  lemma TameStep(t: Table, s: Selector, word: string, s': Selector)
    requires ValidTable(t) && TameSelector(s) && Tame(word) && SetSelector(t, s, word) == Ok(s')
    ensures TameSelector(s')
  {
    hide SetSelector, SetCommands, ParseKeyPattern, AddKeyPattern, HasSpaces, EqNoCase, IsCommandOp, CString, Tame, ValidTable;
    TameWordIsCString(word);
    PlainWordOfSelector(t, s, word);
    WordsAreApart(word);
    if IsCommandOp(word) {
      TameCommands(t, s.commands, word, s'.commands);
    } else if s'.patterns != s.patterns && s'.patterns != [] {
      ParsedIsPart(word);
      var k :| 0 <= k <= |word| && ParseKeyPattern(word).value.pattern == word[k..];
      TamePart(word, k);
      TamePatternAdded(s.patterns, ParseKeyPattern(word).value);
    } else if s'.channels != s.channels && s'.channels != [] {
      TamePart(word, 1);
    }
  }

  lemma {:induction false} TameRun(t: Table, s: Selector, words: seq<string>, s': Selector)
    requires ValidTable(t) && TameSelector(s) && AllTame(words) && SetSelectorAll(t, s, words) == Ok(s')
    ensures TameSelector(s')
    decreases |words|
  {
    hide SetSelector, TameSelector, Tame, ValidTable;
    if words != [] {
      var next := SetSelector(t, s, words[0]).value;
      TameStep(t, s, words[0], next);
      TameRun(t, next, words[1..], s');
    }
  }

  /** A token made of a sign and a tame word. */
  lemma TameToken(sign: string, word: string)
    requires Tame(word) && sign in {"+", "-", "~", "&", "%R~", "%W~"}
    ensures Plain(sign + word) && !Closes(sign + word)
  {
    var token := sign + word;
    assert forall i :: 0 <= i < |sign| ==> !Special(sign[i]) && sign[i] != ')';
    assert forall i :: 0 <= i < |token| ==> token[i] == if i < |sign| then sign[i] else word[i - |sign|];
    assert forall i :: 0 <= i < |token| ==> !Special(token[i]) && token[i] != ')';
  }

  predicate GoodTokens(tokens: seq<string>) {
    forall i :: 0 <= i < |tokens| ==> Plain(tokens[i]) && !Closes(tokens[i])
  }

  lemma GoodConcat(a: seq<string>, b: seq<string>)
    requires GoodTokens(a) && GoodTokens(b)
    ensures GoodTokens(a + b)
  {
    hide Plain, Closes;
  }

  lemma FixedTokensAreGood()
    ensures GoodTokens(["~*"]) && GoodTokens(["&*"]) && GoodTokens(["resetchannels"])
    ensures GoodTokens(["+@all"]) && GoodTokens(["-@all"])
  {}

  /** The tokens of a tame selector survive splitting, and none closes the selector early. */
  lemma TameTokens(s: Selector)
    requires TameSelector(s)
    ensures AllPlain(SelectorTokens(s)) && ClosesOnlyAtEnd(SelectorTokens(s))
  {
    hide Plain, Closes, Tame;
    FixedTokensAreGood();
    forall i | 0 <= i < |s.patterns| ensures Plain(KeyToken(s.patterns[i])) && !Closes(KeyToken(s.patterns[i])) {
      var p := s.patterns[i];
      TameToken(if p.read && p.write then "~" else if p.read then "%R~" else "%W~", p.pattern);
    }
    forall i | 0 <= i < |s.channels| ensures Plain("&" + s.channels[i]) && !Closes("&" + s.channels[i]) {
      TameToken("&", s.channels[i]);
    }
    forall i | 0 <= i < |s.commands.rules|
      ensures Plain(s.commands.rules[i].Text()) && !Closes(s.commands.rules[i].Text())
    {
      TameToken(if s.commands.rules[i].allow then "+" else "-", s.commands.rules[i].name);
    }
    var keys := if s.allKeys then ["~*"] else KeyTokens(s.patterns);
    var channels := if s.allChannels then ["&*"] else ["resetchannels"] + ChannelTokens(s.channels);
    var base := [if RESERVED_BIT in s.commands.bits then "+@all" else "-@all"];
    GoodConcat(["resetchannels"], ChannelTokens(s.channels));
    GoodConcat(base, RuleTexts(s.commands.rules));
    GoodConcat(keys, channels);
    GoodConcat(keys + channels, CommandTokens(s.commands));
  }

  // ---- users made of clean modifiers ----

  /**
   A modifier that keeps a user describable: a rule word without white space or quotes, or a bracketed selector without
   quotes and without a ')' before its last. All other modifiers do.
   */
  predicate CleanModifier(op: string) {
    && CleanOp(op)
    && (IsBracketed(op) ==> Unquoted(op) && ')' !in op[1..|op| - 1])
  }

  /** The root selector has quiet rules, and the others are tame. */
  ghost predicate CleanUser(u: User) {
    && u.selectors != []
    && Quiet(u.selectors[0].commands.rules)
    && forall i :: 0 < i < |u.selectors| ==> TameSelector(u.selectors[i])
  }

  lemma TameIsQuiet(s: Selector)
    requires TameSelector(s)
    ensures Quiet(s.commands.rules)
  {}

  lemma CleanIsPlain(cfg: Config, u: User)
    requires ValidUser(cfg, u) && CleanUser(u)
    ensures PlainUser(u)
  {
    hide ValidSelector, Quiet, TameSelector, AllPlain, ClosesOnlyAtEnd, SelectorTokens;
    forall i | 0 <= i < |u.selectors| ensures PlainSelector(u.selectors[i]) {
      var s := u.selectors[i];
      if i > 0 {
        TameIsQuiet(s);
        TameTokens(s);
      }
      QuietIsPlain(s.commands.rules);
    }
  }

  lemma NewIsTame(root: bool, pubsubDefault: bool)
    ensures TameSelector(NewSelector(root, pubsubDefault)) && Quiet(NewSelector(root, pubsubDefault).commands.rules)
  {}

  lemma BracketedIsTame(cfg: Config, op: string)
    requires ValidTable(cfg.table) && IsBracketed(op) && CleanModifier(op) && SelectorFromOpSet(cfg, op).Ok?
    ensures TameSelector(SelectorFromOpSet(cfg, op).value)
  {
    hide TameSelector, SetSelectorAll, AllTame, CleanOp, ValidTable, SplitArgs;
    var inner := op[1..|op| - 1];
    InnerIsUnquoted(op);
    UnquotedWords(inner);
    var n := NewSelector(false, cfg.pubsubDefault);
    NewIsTame(false, cfg.pubsubDefault);
    TameRun(cfg.table, n, SplitArgs(inner).value, SelectorFromOpSet(cfg, op).value);
  }

  lemma InnerIsUnquoted(op: string)
    requires |op| >= 2 && Unquoted(op)
    ensures Unquoted(op[1..|op| - 1])
  {
    assert forall c :: c in op[1..|op| - 1] ==> c in op;
  }

  lemma RootStepIsClean(cfg: Config, u: User, op: string, u': User)
    requires ValidTable(cfg.table) && CleanUser(u) && CleanOp(op) && OnRoot(cfg, u, op) == Ok(u')
    ensures CleanUser(u')
  {
    hide SetSelector, TameSelector, Quiet, CleanOp, ValidTable;
    CleanStep(cfg.table, u.selectors[0], op);
    assert forall i :: 0 < i < |u'.selectors| ==> u'.selectors[i] == u.selectors[i];
  }

  lemma FlagWordKeepsSelectors(u: User, word: string)
    ensures FlagWord(u, word).Some? ==> FlagWord(u, word).value.selectors == u.selectors
  {
    hide EqNoCase;
  }

  lemma WordStepIsClean(cfg: Config, u: User, op: string, u': User)
    requires ValidTable(cfg.table) && CleanUser(u) && CleanModifier(op) && SetUserOnce(cfg, u, op) == Ok(u')
    ensures CleanUser(u')
  {
    hide CString, EqNoCase, FlagWord, OnRoot, SelectorFromOpSet, ValidHash, TameSelector, Quiet, CleanOp, ValidTable;
    var word := CString(op);
    FlagWordKeepsSelectors(u, word);
    if op == "" || FlagWord(u, word).Some? || op[0] in {'>', '#', '<', '!'} {
      assert u'.selectors == u.selectors;
    } else if IsBracketed(op) {
      BracketedIsTame(cfg, op);
    } else if !EqNoCase(word, "clearselectors") {
      RootStepIsClean(cfg, u, op, u');
    }
  }

  /** A clean modifier keeps a user clean. */
  lemma CleanModifierKeepsClean(cfg: Config, u: User, op: string, u': User)
    requires ValidConfig(cfg) && ValidUser(cfg, u) && CleanUser(u) && CleanModifier(op) && SetUser(cfg, u, op) == Ok(u')
    ensures ValidUser(cfg, u') && CleanUser(u')
  {
    hide SetUserOnce, SetUserOnceAll, CString, EqNoCase, CleanModifier, ValidUser, CleanUser, ValidTable, ValidHash;
    SetUserKeepsValid(cfg, u, op, u');
    if EqNoCase(CString(op), "reset") {
      ResetMakesNew(cfg, u, op);
      NewUserIsClean(cfg);
    } else {
      WordStepIsClean(cfg, u, op, u');
    }
  }

  lemma NewUserIsClean(cfg: Config)
    ensures CleanUser(NewUser(cfg))
  {
    NewIsTame(true, cfg.pubsubDefault);
  }

  /** Any sequence of ACLSetUser calls; a refused one leaves the user as it was. */
  function SetUserRun(cfg: Config, u: User, ops: seq<string>): (v: User)
    requires u.selectors != []
    ensures v.selectors != []
    decreases |ops|
  {
    if ops == [] then u
    else
      var r := SetUser(cfg, u, ops[0]);
      SetUserRun(cfg, if r.Ok? then r.value else u, ops[1..])
  }

  predicate CleanModifiers(ops: seq<string>) {
    forall i :: 0 <= i < |ops| ==> CleanModifier(ops[i])
  }

  lemma {:induction false} CleanRunKeepsClean(cfg: Config, u: User, ops: seq<string>)
    requires ValidConfig(cfg) && ValidUser(cfg, u) && CleanUser(u) && CleanModifiers(ops) && u.selectors != []
    ensures ValidUser(cfg, SetUserRun(cfg, u, ops)) && CleanUser(SetUserRun(cfg, u, ops))
    decreases |ops|
  {
    hide SetUser, CleanModifier, CleanUser, ValidConfig, ValidUser;
    if ops != [] {
      var r := SetUser(cfg, u, ops[0]);
      if r.Ok? {
        CleanModifierKeepsClean(cfg, u, ops[0], r.value);
      }
      CleanRunKeepsClean(cfg, if r.Ok? then r.value else u, ops[1..]);
    }
  }

  /** Describing the user aborts for none of its selectors. */
  ghost predicate Describable(cfg: Config, u: User) {
    forall i :: 0 <= i < |u.selectors| ==> Sane(cfg.table, cfg.pubsubDefault, StoredOf(u.selectors[i]))
  }

  lemma CleanIsDescribable(cfg: Config, u: User)
    requires ValidConfig(cfg) && ValidUser(cfg, u) && CleanUser(u)
    ensures Describable(cfg, u)
  {
    hide Quiet, TameSelector, Sane, StoredOf, Consistent, ValidTable, ValidHash, ValidKeys, ValidChannels;
    forall i | 0 <= i < |u.selectors| ensures Sane(cfg.table, cfg.pubsubDefault, StoredOf(u.selectors[i])) {
      var s := u.selectors[i];
      assert ValidSelector(cfg.table, s);
      if i > 0 {
        TameIsQuiet(s);
      }
      QuietIsSane(cfg.table, cfg.pubsubDefault, s);
    }
  }

  /**
   Whatever clean modifiers a new user was given: describing it never aborts, and the description rebuilds it exactly
   if no pattern list holds "*" with both permissions.
   */
  lemma EveryCleanUserIsRebuiltIff(cfg: Config, ops: seq<string>)
    requires ValidConfig(cfg) && CleanModifiers(ops)
    ensures var u := SetUserRun(cfg, NewUser(cfg), ops);
            && ValidUser(cfg, u) && Describable(cfg, u)
            && (Reread(cfg, u).Ok? && EquivalentUser(u, Reread(cfg, u).value) <==> HasNoFullStar(u))
  {
    hide SetUserRun, CleanModifiers, CleanUser, ValidUser, PlainUser, Reread, EquivalentUser, HasNoFullStar, Describable,
      ValidConfig;
    NewUserIsValid(cfg);
    NewUserIsClean(cfg);
    CleanRunKeepsClean(cfg, NewUser(cfg), ops);
    var u := SetUserRun(cfg, NewUser(cfg), ops);
    CleanIsPlain(cfg, u);
    CleanIsDescribable(cfg, u);
    RebuiltIffNoFullStar(cfg, u);
  }

  // ---- a pattern that does not come back ----

  /** The code stores "*" as a pattern when both permissions are spelt out. */
  lemma FullStarIsStored(t: Table, root: bool, pubsubDefault: bool)
    ensures var n := NewSelector(root, pubsubDefault);
            SetSelector(t, n, "%RW~*") == Ok(n.(patterns := [KeyPattern("*", true, true)]))
  {
    hide SetSelector, CString, EqNoCase, IsCommandOp;
    var n, op := NewSelector(root, pubsubDefault), "%RW~*";
    PlainWordOfSelector(t, n, op);
    SymbolIsNoWord(op);
    NotACommand(op);
    FullStarParses();
  }

  lemma FullStarParses()
    ensures ParseKeyPattern("%RW~*") == Ok(KeyPattern("*", true, true))
  {
    var op := "%RW~*";
    assert ParsePermissions(op, 3, true, true) == Ok((true, true, 4));
    assert ParsePermissions(op, 2, true, false) == ParsePermissions(op, 3, true, true);
    assert op[4..] == "*";
    assert !HasSpaces("*");
  }

  /** A new user with that one modifier is valid and describable, and its description makes another user. */
  lemma FullStarUserIsLost(cfg: Config)
    requires ValidConfig(cfg)
    ensures var r := SetUser(cfg, NewUser(cfg), "%RW~*");
            && r.Ok? && ValidUser(cfg, r.value) && Describable(cfg, r.value)
            && !(Reread(cfg, r.value).Ok? && EquivalentUser(r.value, Reread(cfg, r.value).value))
  {
    hide SetUser, SetSelector, ValidUser, Reread, EquivalentUser, Describable, CleanUser, PlainUser, ValidConfig;
    var n, op := NewUser(cfg), "%RW~*";
    FullStarIsStored(cfg.table, true, cfg.pubsubDefault);
    SymbolIsForRoot(cfg, n, op);
    NewUserIsValid(cfg);
    NewUserIsClean(cfg);
    StarModifierIsClean();
    var u := SetUser(cfg, n, op).value;
    CleanModifierKeepsClean(cfg, n, op, u);
    CleanIsPlain(cfg, u);
    CleanIsDescribable(cfg, u);
    RebuiltIffNoFullStar(cfg, u);
    assert u.selectors[0].patterns[0] == KeyPattern("*", true, true);
  }

  lemma StarModifierIsClean()
    ensures CleanModifier("%RW~*")
  {}

  // ---- a bracketed selector with unbalanced quotes ----

  lemma OpenQuoteSplits()
    ensures SplitArgs("~key \"") == None
  {
    hide Words, Word;
    BareWord("~key", " \"", "");
    assert "~key" + " \"" == "~key \"" && "" + "~key" == "~key";
    WordAtSpace("\"", "~key");
    assert [' '] + "\"" == " \"";
    WordsStart("~key", " \"");
    QuoteAlone();
  }

  lemma QuoteAlone()
    ensures Words("\"") == None
  {
    assert SkipBlanks("\"") == "\"" && "\""[1..] == "";
    assert TurnAt("\"", Bare) == More("", Double, 1) && TurnAt("", Double) == Bad;
  }

  /** It is accepted, against the documentation of the function, and adds a selector without any permission. */
  lemma OpenQuoteIsAccepted(cfg: Config, u: User)
    requires u.selectors != []
    ensures SetUser(cfg, u, "(~key \")") == Ok(u.(selectors := u.selectors + [NewSelector(false, cfg.pubsubDefault)]))
  {
    hide SplitArgs, SetUser;
    var op := "(~key \")";
    assert op[1..|op| - 1] == "~key \"";
    OpenQuoteSplits();
    BracketedOpAddsSelector(cfg, u, op, NewSelector(false, cfg.pubsubDefault));
  }
}
