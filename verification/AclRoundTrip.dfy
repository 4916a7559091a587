/** Splitting, merging and applying a description: the other half of the round trip. */
module AclRoundTrip {
  import opened AclText
  import opened AclCommands
  import opened AclSelector
  import opened AclReplay
  import opened AclUser
  import opened AclUserInvariant
  import opened AclDescribe
  import opened AclSplitArgs

  // ---- applying the tokens of one selector ----

  predicate Symbol(c: char) {
    c == '~' || c == '%' || c == '&' || c == '+' || c == '-'
  }

  lemma SymbolIsNoWord(op: string)
    requires op != "" && Symbol(op[0])
    ensures !EqNoCase(op, "allkeys") && !EqNoCase(op, "resetkeys") && !EqNoCase(op, "allchannels")
    ensures !EqNoCase(op, "resetchannels") && !EqNoCase(op, "allcommands") && !EqNoCase(op, "nocommands")
    ensures op[0] != '~' ==> !EqNoCase(op, "~*")
    ensures op[0] != '&' ==> !EqNoCase(op, "&*")
  {
    DifferAt(op, "allkeys", 0);
    DifferAt(op, "resetkeys", 0);
    DifferAt(op, "allchannels", 0);
    DifferAt(op, "resetchannels", 0);
    DifferAt(op, "allcommands", 0);
    DifferAt(op, "nocommands", 0);
    if op[0] != '~' { DifferAt(op, "~*", 0); }
    if op[0] != '&' { DifferAt(op, "&*", 0); }
  }

  lemma NotACommand(op: string)
    requires op != "" && Symbol(op[0]) && op[0] != '+' && op[0] != '-'
    ensures !IsCommandOp(op)
  {
    SymbolIsNoWord(op);
  }

  lemma StarOnly(op: string, c: char)
    requires op != "" && op[0] == c && (c == '~' || c == '&')
    ensures EqNoCase(op, [c, '*']) <==> op[1..] == "*"
  {
    if EqNoCase(op, [c, '*']) {
      assert |op| == 2 && Lower(op)[1] == Lower([c, '*'])[1];
    } else {
      assert op[1..] == "*" ==> op == [c, '*'];
    }
  }

  lemma {:induction false} SetAllConcat(t: Table, s: Selector, a: seq<string>, b: seq<string>, s': Selector)
    requires SetSelectorAll(t, s, a) == Ok(s')
    ensures SetSelectorAll(t, s, a + b) == SetSelectorAll(t, s', b)
    decreases |a|
  {
    hide SetSelector;
    if a == [] {
      assert a + b == b;
    } else {
      SetAllConcat(t, SetSelector(t, s, a[0]).value, a[1..], b, s');
      assert (a + b)[1..] == a[1..] + b;
    }
  }

  predicate IsFullStar(p: KeyPattern) {
    p.pattern == "*" && p.read && p.write
  }

  lemma KeyTokenParses(p: KeyPattern)
    requires ValidPattern(p)
    ensures ParseKeyPattern(KeyToken(p)) == Ok(p)
  {
    var op := KeyToken(p);
    if p.read && p.write {
      assert op[1..] == p.pattern;
    } else {
      assert op[0] == '%' && op[2] == '~' && op[3..] == p.pattern;
      assert ParsePermissions(op, 2, p.read, p.write) == Ok((p.read, p.write, 3));
    }
  }

  lemma {:induction false} AddNewPattern(patterns: seq<KeyPattern>, p: KeyPattern)
    requires forall i :: 0 <= i < |patterns| ==> patterns[i].pattern != p.pattern
    ensures AddKeyPattern(patterns, p) == patterns + [p]
  {
    if patterns != [] {
      AddNewPattern(patterns[1..], p);
    }
  }

  lemma NoNulIn(s: string)
    requires !HasSpaces(s)
    ensures '\0' !in s
  {}

  lemma KeyTokenHasNoNul(p: KeyPattern)
    requires ValidPattern(p)
    ensures '\0' !in KeyToken(p)
  {
    NoNulIn(p.pattern);
  }

  lemma KeyTokenApplies(t: Table, s: Selector, p: KeyPattern)
    requires !s.allKeys && ValidPattern(p) && !IsFullStar(p)
    requires forall i :: 0 <= i < |s.patterns| ==> s.patterns[i].pattern != p.pattern
    ensures SetSelector(t, s, KeyToken(p)) == Ok(s.(patterns := s.patterns + [p]))
  {
    hide SetSelector, CString, EqNoCase, ParseKeyPattern, AddKeyPattern, HasSpaces;
    var op := KeyToken(p);
    KeyTokenHasNoNul(p);
    PlainWordOfSelector(t, s, op);
    SymbolIsNoWord(op);
    NotACommand(op);
    if op[0] == '~' {
      StarOnly(op, '~');
      assert op[1..] == p.pattern;
    }
    KeyTokenParses(p);
    AddNewPattern(s.patterns, p);
  }

  lemma {:induction false} KeyTokensApply(t: Table, s: Selector, patterns: seq<KeyPattern>)
    requires !s.allKeys && ValidPatterns(s.patterns + patterns)
    requires forall i :: 0 <= i < |patterns| ==> !IsFullStar(patterns[i])
    ensures SetSelectorAll(t, s, KeyTokens(patterns)) == Ok(s.(patterns := s.patterns + patterns))
    decreases |patterns|
  {
    hide SetSelector, KeyToken, IsFullStar;
    var all, k := s.patterns + patterns, |s.patterns|;
    if patterns == [] {
      assert all == s.patterns;
    } else {
      assert all[k] == patterns[0];
      assert forall i :: 0 <= i < k ==> all[i] == s.patterns[i];
      KeyTokenApplies(t, s, patterns[0]);
      var next := s.(patterns := s.patterns + [patterns[0]]);
      assert next.patterns + patterns[1..] == all;
      KeyTokensApply(t, next, patterns[1..]);
      assert KeyTokens(patterns)[1..] == KeyTokens(patterns[1..]);
    }
  }

  lemma ChannelTokenApplies(t: Table, s: Selector, channel: string)
    requires !s.allChannels && channel != "*" && !HasSpaces(channel) && channel !in s.channels
    ensures SetSelector(t, s, "&" + channel) == Ok(s.(channels := s.channels + [channel]))
  {
    hide SetSelector, CString, EqNoCase, HasSpaces;
    var op := "&" + channel;
    NoNulIn(channel);
    PlainWordOfSelector(t, s, op);
    SymbolIsNoWord(op);
    NotACommand(op);
    StarOnly(op, '&');
    assert op[1..] == channel;
  }

  lemma {:induction false} ChannelTokensApply(t: Table, s: Selector, channels: seq<string>)
    requires !s.allChannels && Distinct(s.channels + channels)
    requires forall i :: 0 <= i < |channels| ==> channels[i] != "*" && !HasSpaces(channels[i])
    ensures SetSelectorAll(t, s, ChannelTokens(channels)) == Ok(s.(channels := s.channels + channels))
    decreases |channels|
  {
    hide SetSelector, HasSpaces;
    var all, k := s.channels + channels, |s.channels|;
    if channels == [] {
      assert all == s.channels;
    } else {
      assert all[k] == channels[0];
      assert forall i :: 0 <= i < k ==> all[i] == s.channels[i];
      ChannelTokenApplies(t, s, channels[0]);
      var next := s.(channels := s.channels + [channels[0]]);
      assert next.channels + channels[1..] == all;
      ChannelTokensApply(t, next, channels[1..]);
      assert ChannelTokens(channels)[1..] == ChannelTokens(channels[1..]);
    }
  }

  lemma RuleTextApplies(t: Table, s: Selector, r: Rule)
    requires '\0' !in r.name
    ensures SetSelector(t, s, r.Text()) ==
            match SetCommands(t, s.commands, r.Text())
            case Err(e) => Err(e)
            case Ok(p) => Ok(s.(commands := p))
  {
    hide SetSelector, CString, SetCommands;
    PlainWordOfSelector(t, s, r.Text());
    SymbolIsNoWord(r.Text());
  }

  lemma {:induction false} RuleTextsApply(t: Table, s: Selector, rules: seq<Rule>, p: CommandPerms)
    requires Replay(t, s.commands, rules) == Ok(p) && forall i :: 0 <= i < |rules| ==> '\0' !in rules[i].name
    ensures SetSelectorAll(t, s, RuleTexts(rules)) == Ok(s.(commands := p))
    decreases |rules|
  {
    if rules != [] {
      RuleTextApplies(t, s, rules[0]);
      RuleTextsApply(t, s.(commands := SetCommands(t, s.commands, rules[0].Text()).value), rules[1..], p);
      assert RuleTexts(rules)[1..] == RuleTexts(rules[1..]);
    }
  }

  lemma BaseApplies(t: Table, s: Selector, all: bool)
    ensures SetSelector(t, s, if all then "+@all" else "-@all") == Ok(s.(commands := Base(all)))
  {
    hide SetSelector, CString;
    PlainWordOfSelector(t, s, "+@all");
    PlainWordOfSelector(t, s, "-@all");
    SymbolIsNoWord("+@all");
    SymbolIsNoWord("-@all");
    DifferAt("-@all", "+@all", 0);
  }

  lemma CommandTokensApply(t: Table, s: Selector, p: CommandPerms)
    requires Consistent(t, p)
    ensures Replay(t, StartOf(p), p.rules).Ok?
    ensures SetSelectorAll(t, s, CommandTokens(p)) == Ok(s.(commands := Replay(t, StartOf(p), p.rules).value))
  {
    hide SetSelector, SetCommands, ParseRule, IsAlias, Compact, Run;
    ReplayReproduces(t, p);
    BaseApplies(t, s, RESERVED_BIT in p.bits);
    RuleTextsApply(t, s.(commands := StartOf(p)), p.rules, Replay(t, StartOf(p), p.rules).value);
    assert CommandTokens(p)[1..] == RuleTexts(p.rules);
  }

  /** Same flags, patterns, channels, bitmap, first-args (up to case and order) and rules; ALLCOMMANDS may differ. */
  predicate Equivalent(s: Selector, s': Selector) {
    && s.(commands := NoCommands) == s'.(commands := NoCommands)
    && AccessOf(s.commands) == AccessOf(s'.commands)
    && s.commands.rules == s'.commands.rules
  }

  predicate NoFullStar(s: Selector) {
    forall i :: 0 <= i < |s.patterns| ==> !IsFullStar(s.patterns[i])
  }

  lemma AllKeysWord(t: Table, n: Selector)
    ensures SetSelector(t, n, "~*") == Ok(n.(allKeys := true, patterns := []))
  {
    hide SetSelector, CString;
    PlainWordOfSelector(t, n, "~*");
  }

  lemma KeysApply(t: Table, n: Selector, s: Selector)
    requires ValidKeys(s) && NoFullStar(s) && !n.allKeys && n.patterns == []
    ensures SetSelectorAll(t, n, if s.allKeys then ["~*"] else KeyTokens(s.patterns))
         == Ok(n.(allKeys := s.allKeys, patterns := s.patterns))
  {
    if s.allKeys {
      AllKeysWord(t, n);
      assert ["~*"][1..] == [];
    } else {
      assert n.patterns + s.patterns == s.patterns;
      KeyTokensApply(t, n, s.patterns);
    }
  }

  lemma ResetChannelsWord(t: Table, n: Selector)
    ensures SetSelector(t, n, "resetchannels") == Ok(n.(allChannels := false, channels := []))
    ensures SetSelector(t, n, "&*") == Ok(n.(allChannels := true, channels := []))
  {
    hide SetSelector, CString;
    PlainWordOfSelector(t, n, "resetchannels");
    PlainWordOfSelector(t, n, "&*");
    SymbolIsNoWord("&*");
  }

  lemma ChannelsApply(t: Table, n: Selector, s: Selector)
    requires ValidChannels(s)
    ensures SetSelectorAll(t, n, if s.allChannels then ["&*"] else ["resetchannels"] + ChannelTokens(s.channels))
         == Ok(n.(allChannels := s.allChannels, channels := s.channels))
  {
    hide SetSelector;
    ResetChannelsWord(t, n);
    if s.allChannels {
      assert ["&*"][1..] == [];
    } else {
      var next := n.(allChannels := false, channels := []);
      assert next.channels + s.channels == s.channels;
      ChannelTokensApply(t, next, s.channels);
      SetAllConcat(t, n, ["resetchannels"], ChannelTokens(s.channels), next);
    }
  }

  /** The tokens of a selector, applied to a new one, rebuild it. */
  lemma SelectorTokensApply(cfg: Config, s: Selector)
    requires ValidSelector(cfg.table, s) && NoFullStar(s)
    ensures var r := SetSelectorAll(cfg.table, NewSelector(s.root, cfg.pubsubDefault), SelectorTokens(s));
            r.Ok? && Equivalent(s, r.value)
  {
    var t, n := cfg.table, NewSelector(s.root, cfg.pubsubDefault);
    var keys := if s.allKeys then ["~*"] else KeyTokens(s.patterns);
    var channels := if s.allChannels then ["&*"] else ["resetchannels"] + ChannelTokens(s.channels);
    var n1 := n.(allKeys := s.allKeys, patterns := s.patterns);
    var n2 := n1.(allChannels := s.allChannels, channels := s.channels);
    KeysApply(t, n, s);
    ChannelsApply(t, n1, s);
    SetAllConcat(t, n, keys, channels, n1);
    SetAllConcat(t, n, keys + channels, CommandTokens(s.commands), n2);
    CommandTokensApply(t, n2, s.commands);
    ReplayReproduces(t, s.commands);
  }

  // ---- splitting and merging ----

  /** Only the last token of a bracketed selector may end in ')'. */
  predicate ClosesOnlyAtEnd(tokens: seq<string>) {
    forall i :: 0 <= i < |tokens| - 1 ==> !Closes(tokens[i])
  }

  function Whole(tokens: seq<string>): string {
    "(" + Join(tokens, ' ') + ")"
  }

  function Wholes(lists: seq<seq<string>>): seq<string> {
    if lists == [] then [] else [Whole(lists[0])] + Wholes(lists[1..])
  }

  /** Merging takes the tokens after an opening one up to the first that closes. */
  lemma {:induction false} MergeToClose(open: string, middle: seq<string>, last: string, argv: seq<string>)
    requires forall i :: 0 <= i < |middle| ==> !Closes(middle[i])
    requires Closes(last)
    ensures MergeArgs(middle + [last] + argv, Some(open)) ==
            match MergeArgs(argv, None)
            case None => None
            case Some(rest) => Some([Join([open] + middle + [last], ' ')] + rest)
    decreases |middle|
  {
    var all := middle + [last] + argv;
    if middle == [] {
      assert all[0] == last && all[1..] == argv;
      assert [open] + middle + [last] == [open, last];
      assert Join([open, last], ' ') == open + " " + last by { assert [open, last][1..] == [last]; }
    } else {
      var next := open + " " + middle[0];
      assert all[0] == middle[0] && all[1..] == middle[1..] + [last] + argv;
      MergeToClose(next, middle[1..], last, argv);
      JoinHeads(open, middle[0], middle[1..] + [last]);
      assert [open] + middle + [last] == [open, middle[0]] + (middle[1..] + [last]);
      assert [next] + middle[1..] + [last] == [next] + (middle[1..] + [last]);
    }
  }

  lemma {:induction false} JoinHeads(a: string, b: string, rest: seq<string>)
    requires rest != []
    ensures Join([a, b] + rest, ' ') == Join([a + " " + b] + rest, ' ')
  {
    assert ([a, b] + rest)[1..] == [b] + rest;
    assert ([b] + rest)[1..] == rest;
    assert ([a + " " + b] + rest)[1..] == rest;
  }

  lemma {:induction false} MergeOne(tokens: seq<string>, argv: seq<string>)
    requires |tokens| >= 2 && AllPlain(tokens) && ClosesOnlyAtEnd(tokens)
    ensures MergeArgs(Bracketed(tokens) + argv, None) ==
            match MergeArgs(argv, None)
            case None => None
            case Some(rest) => Some([Whole(tokens)] + rest)
  {
    var n := |tokens| - 1;
    var open, middle, last := "(" + tokens[0], tokens[1..n], tokens[n] + ")";
    var all := Bracketed(tokens) + argv;
    assert !Closes(tokens[0]) && tokens[0] != "";
    assert Opens(open);
    assert all[0] == open && all[1..] == middle + [last] + argv;
    MergeToClose(open, middle, last, argv);
    BracketedJoin(tokens);
    assert [open] + middle + [last] == Bracketed(tokens);
  }

  predicate AllMergeable(lists: seq<seq<string>>) {
    forall i :: 0 <= i < |lists| ==> |lists[i]| >= 2 && AllPlain(lists[i]) && ClosesOnlyAtEnd(lists[i])
  }

  lemma {:induction false} MergeBrackets(lists: seq<seq<string>>)
    requires AllMergeable(lists)
    ensures MergeArgs(BracketAll(lists), None) == Some(Wholes(lists))
  {
    if lists != [] {
      MergeOne(lists[0], BracketAll(lists[1..]));
      MergeBrackets(lists[1..]);
    }
  }

  lemma {:induction false} MergeUnbracketed(tokens: seq<string>, argv: seq<string>)
    requires forall i :: 0 <= i < |tokens| ==> !Opens(tokens[i])
    ensures MergeArgs(tokens + argv, None) ==
            match MergeArgs(argv, None)
            case None => None
            case Some(rest) => Some(tokens + rest)
    decreases |tokens|
  {
    if tokens == [] {
      assert tokens + argv == argv;
      if MergeArgs(argv, None).Some? { assert tokens + MergeArgs(argv, None).value == MergeArgs(argv, None).value; }
    } else {
      assert (tokens + argv)[1..] == tokens[1..] + argv;
      MergeUnbracketed(tokens[1..], argv);
      if MergeArgs(argv, None).Some? {
        var rest := MergeArgs(argv, None).value;
        assert [tokens[0]] + (tokens[1..] + rest) == tokens + rest;
      }
    }
  }

  // ---- applying to a user ----

  lemma {:induction false} SetUserAllConcat(cfg: Config, u: User, a: seq<string>, b: seq<string>, u': User)
    requires u.selectors != [] && u'.selectors != [] && SetUserAll(cfg, u, a) == Ok(u')
    ensures SetUserAll(cfg, u, a + b) == SetUserAll(cfg, u', b)
    decreases |a|
  {
    hide SetUser;
    if a == [] {
      assert a + b == b;
    } else {
      SetUserAllConcat(cfg, SetUser(cfg, u, a[0]).value, a[1..], b, u');
      assert (a + b)[1..] == a[1..] + b;
    }
  }

  lemma WordStarts(op: string)
    requires op != "" && op[0] != '\0'
    ensures CString(op) != "" && CString(op)[0] == op[0]
  {}

  lemma ResetChannelsIsForRoot(cfg: Config, u: User)
    requires u.selectors != []
    ensures SetUser(cfg, u, "resetchannels") == OnRoot(cfg, u, "resetchannels")
  {
    hide SetUser, SetUserOnce, OnRoot, CString, SetUserOnceAll;
    PlainWordOfUser(cfg, u, "resetchannels");
  }

  lemma SymbolIsForRoot(cfg: Config, u: User, op: string)
    requires u.selectors != [] && op != "" && (Symbol(op[0]) || op == "resetchannels")
    ensures SetUser(cfg, u, op) == OnRoot(cfg, u, op)
  {
    hide SetSelector, OnRoot, SelectorFromOpSet, SetUserOnceAll, EqNoCase, CString, FlagWord;
    if Symbol(op[0]) {
      var word := CString(op);
      WordStarts(op);
      FlagWordIsNone(u, word);
      DifferAt(word, "reset", 0);
      DifferAt(word, "clearselectors", 0);
    } else {
      ResetChannelsIsForRoot(cfg, u);
    }
  }

  predicate ForRoot(tokens: seq<string>) {
    forall i :: 0 <= i < |tokens| ==> tokens[i] != "" && (Symbol(tokens[i][0]) || tokens[i] == "resetchannels")
  }

  lemma RootTokenApplies(cfg: Config, u: User, op: string, s: Selector)
    requires |u.selectors| == 1 && op != "" && (Symbol(op[0]) || op == "resetchannels")
    requires SetSelector(cfg.table, u.selectors[0], op) == Ok(s)
    ensures SetUser(cfg, u, op) == Ok(u.(selectors := [s]))
  {
    SymbolIsForRoot(cfg, u, op);
    hide SetSelector, SetUser;
    assert [s] + u.selectors[1..] == [s];
  }

  lemma {:induction false} RootTokensApply(cfg: Config, u: User, tokens: seq<string>, s: Selector)
    requires |u.selectors| == 1 && ForRoot(tokens)
    requires SetSelectorAll(cfg.table, u.selectors[0], tokens) == Ok(s)
    ensures SetUserAll(cfg, u, tokens) == Ok(u.(selectors := [s]))
    decreases |tokens|
  {
    hide SetUser, SetSelector;
    if tokens == [] {
      assert u.selectors == [s];
    } else {
      var next := SetSelector(cfg.table, u.selectors[0], tokens[0]).value;
      RootTokenApplies(cfg, u, tokens[0], next);
      RootTokensApply(cfg, u.(selectors := [next]), tokens[1..], s);
    }
  }

  lemma SelectorTokensAreForRoot(s: Selector)
    ensures ForRoot(SelectorTokens(s))
  {}

  lemma {:induction false} WholeMakesSelector(cfg: Config, s: Selector)
    requires ValidSelector(cfg.table, s) && NoFullStar(s) && !s.root && AllPlain(SelectorTokens(s))
    ensures var r := SelectorFromOpSet(cfg, Whole(SelectorTokens(s)));
            r.Ok? && Equivalent(s, r.value)
  {
    hide SetSelectorAll, SelectorTokens, ValidSelector, AllPlain;
    var op := Whole(SelectorTokens(s));
    assert op[1..|op| - 1] == Join(SelectorTokens(s), ' ');
    PlainWordsSurvive(SelectorTokens(s));
    SelectorTokensApply(cfg, s);
  }

  lemma BracketedOpAddsSelector(cfg: Config, u: User, op: string, made: Selector)
    requires u.selectors != [] && IsBracketed(op) && SelectorFromOpSet(cfg, op) == Ok(made)
    ensures SetUser(cfg, u, op) == Ok(u.(selectors := u.selectors + [made]))
  {
    hide SelectorFromOpSet;
    BracketIsNoWord(u, op);
  }

  lemma BracketIsNoWord(u: User, op: string)
    requires op != "" && op[0] == '('
    ensures FlagWord(u, CString(op)).None? && !EqNoCase(CString(op), "reset")
  {
    FlagWordIsNone(u, CString(op));
    DifferAt(CString(op), "reset", 0);
  }

  ghost predicate EquivalentLists(a: seq<Selector>, b: seq<Selector>) {
    |a| == |b| && forall i :: 0 <= i < |a| ==> Equivalent(a[i], b[i])
  }

  ghost predicate Readable(t: Table, s: Selector) {
    ValidSelector(t, s) && NoFullStar(s) && !s.root && AllPlain(SelectorTokens(s))
  }

  /** `v` is `u` with selectors added that are equivalent to `others`. */
  ghost predicate Extends(u: User, v: User, others: seq<Selector>) {
    && v.flags == u.flags && v.passwords == u.passwords
    && |v.selectors| == |u.selectors| + |others| && v.selectors[..|u.selectors|] == u.selectors
    && EquivalentLists(others, v.selectors[|u.selectors|..])
  }

  lemma ExtendsStep(u: User, v: User, w: User, s: Selector, made: Selector, others: seq<Selector>)
    requires v == u.(selectors := u.selectors + [made]) && Equivalent(s, made) && Extends(v, w, others)
    ensures Extends(u, w, [s] + others)
  {
    hide Equivalent;
    assert w.selectors[..|u.selectors|] == w.selectors[..|v.selectors|][..|u.selectors|];
    assert w.selectors[|u.selectors|..] == [made] + w.selectors[|v.selectors|..];
  }

  lemma ExtendsSelf(u: User)
    ensures Extends(u, u, [])
  {}

  lemma {:induction false} WholesApply(cfg: Config, u: User, others: seq<Selector>)
    requires u.selectors != [] && forall i :: 0 <= i < |others| ==> Readable(cfg.table, others[i])
    ensures var r := SetUserAll(cfg, u, Wholes(TokenLists(others)));
            r.Ok? && Extends(u, r.value, others)
    decreases |others|
  {
    hide SetUser, SelectorFromOpSet, Extends, Equivalent, SelectorTokens;
    ExtendsSelf(u);
    if others != [] {
      var s, rest := others[0], others[1..];
      var op := Whole(SelectorTokens(s));
      WholeMakesSelector(cfg, s);
      var made := SelectorFromOpSet(cfg, op).value;
      var next := u.(selectors := u.selectors + [made]);
      BracketedOpAddsSelector(cfg, u, op, made);
      WholesApply(cfg, next, rest);
      assert Wholes(TokenLists(others)) == [op] + Wholes(TokenLists(rest));
      ExtendsStep(u, next, SetUserAll(cfg, next, Wholes(TokenLists(rest))).value, s, made, rest);
      assert others == [s] + rest;
    }
  }

  lemma FlagTokenApplies(cfg: Config, u: User)
    requires u.selectors != []
    ensures SetUser(cfg, u, "on") == Ok(u.(flags := u.flags.(enabled := true, disabled := false)))
    ensures SetUser(cfg, u, "off") == Ok(u.(flags := u.flags.(disabled := true, enabled := false)))
    ensures SetUser(cfg, u, "nopass") == Ok(u.(flags := u.flags.(nopass := true), passwords := []))
  {
    hide OnRoot, SelectorFromOpSet, SetUserOnce, SetUser, CString;
    PlainWordOfUser(cfg, u, "on");
    PlainWordOfUser(cfg, u, "off");
    PlainWordOfUser(cfg, u, "nopass");
  }

  lemma SanitizeTokenApplies(cfg: Config, u: User)
    requires u.selectors != []
    ensures SetUser(cfg, u, "skip-sanitize-payload") == Ok(u.(flags := u.flags.(skipSanitize := true, sanitize := false)))
    ensures SetUser(cfg, u, "sanitize-payload") == Ok(u.(flags := u.flags.(sanitize := true, skipSanitize := false)))
  {
    hide OnRoot, SelectorFromOpSet, SetUserOnce, SetUser, CString;
    PlainWordOfUser(cfg, u, "skip-sanitize-payload");
    PlainWordOfUser(cfg, u, "sanitize-payload");
  }

  lemma OneToken(cfg: Config, u: User, op: string, v: User)
    requires u.selectors != [] && v.selectors != [] && SetUser(cfg, u, op) == Ok(v)
    ensures SetUserAll(cfg, u, [op]) == Ok(v)
  {
    hide SetUser;
    assert [op][1..] == [];
  }

  lemma FlagTokensApply(cfg: Config, u: User, flags: Flags)
    requires u.selectors != [] && u.passwords == [] && !u.flags.nopass
    requires flags.enabled != flags.disabled && flags.skipSanitize != flags.sanitize
    ensures SetUserAll(cfg, u, FlagTokens(flags)) == Ok(u.(flags := flags))
  {
    hide SetUser, SetUserAll;
    var on, nopass := [if flags.enabled then "on" else "off"], if flags.nopass then ["nopass"] else [];
    var sanitize := [if flags.skipSanitize then "skip-sanitize-payload" else "sanitize-payload"];
    var u1 := u.(flags := u.flags.(enabled := flags.enabled, disabled := flags.disabled));
    FlagTokenApplies(cfg, u);
    OneToken(cfg, u, on[0], u1);
    var u2 := u1.(flags := u1.flags.(nopass := flags.nopass));
    FlagTokenApplies(cfg, u1);
    if flags.nopass {
      OneToken(cfg, u1, "nopass", u2);
    } else {
      NoToken(cfg, u1);
    }
    SanitizeTokenApplies(cfg, u2);
    OneToken(cfg, u2, sanitize[0], u.(flags := flags));
    SetUserAllConcat(cfg, u, on, nopass, u1);
    SetUserAllConcat(cfg, u, on + nopass, sanitize, u2);
    assert FlagTokens(flags) == on + nopass + sanitize;
  }

  lemma NoToken(cfg: Config, u: User)
    requires u.selectors != []
    ensures SetUserAll(cfg, u, []) == Ok(u)
  {}

  lemma PasswordTokenApplies(cfg: Config, u: User, hash: string)
    requires u.selectors != [] && ValidHash(hash) && hash !in u.passwords && !u.flags.nopass
    ensures SetUser(cfg, u, "#" + hash) == Ok(u.(passwords := u.passwords + [hash]))
  {
    hide OnRoot, SelectorFromOpSet, ValidHash;
    var op := "#" + hash;
    FlagWordIsNone(u, CString(op));
    DifferAt(CString(op), "reset", 0);
    assert op[1..] == hash;
  }

  lemma {:induction false} PasswordTokensApply(cfg: Config, u: User, passwords: seq<string>)
    requires u.selectors != [] && ValidPasswords(u.passwords + passwords) && (passwords != [] ==> !u.flags.nopass)
    ensures SetUserAll(cfg, u, PasswordTokens(passwords)) == Ok(u.(passwords := u.passwords + passwords))
    decreases |passwords|
  {
    hide SetUser, ValidHash;
    var all, k := u.passwords + passwords, |u.passwords|;
    if passwords == [] {
      assert all == u.passwords;
    } else {
      assert all[k] == passwords[0];
      assert forall i :: 0 <= i < k ==> all[i] == u.passwords[i];
      PasswordTokenApplies(cfg, u, passwords[0]);
      var next := u.(passwords := u.passwords + [passwords[0]]);
      assert next.passwords + passwords[1..] == all;
      PasswordTokensApply(cfg, next, passwords[1..]);
      assert PasswordTokens(passwords)[1..] == PasswordTokens(passwords[1..]);
    }
  }

  // ---- the round trip ----

  /** The tokens that are split again survive that, and no early ')' is in a bracketed selector. */
  predicate PlainSelector(s: Selector) {
    && AllPlain(RuleTexts(s.commands.rules))
    && (!s.root ==> AllPlain(SelectorTokens(s)) && ClosesOnlyAtEnd(SelectorTokens(s)))
  }

  predicate PlainUser(u: User) {
    forall i :: 0 <= i < |u.selectors| ==> PlainSelector(u.selectors[i])
  }

  predicate HasNoFullStar(u: User) {
    forall i :: 0 <= i < |u.selectors| ==> NoFullStar(u.selectors[i])
  }

  ghost predicate EquivalentUser(u: User, v: User) {
    u.flags == v.flags && u.passwords == v.passwords && EquivalentLists(u.selectors, v.selectors)
  }

  lemma NoSpaceIn(s: string)
    requires !HasSpaces(s)
    ensures ' ' !in s
  {
    assert forall i :: 0 <= i < |s| ==> !IsSpace(s[i]);
  }

  lemma PlainIsFreeOfSpace(tokens: seq<string>)
    requires AllPlain(tokens)
    ensures FreeOf(tokens, ' ')
  {}

  lemma RootTokensHaveNoSpace(t: Table, s: Selector)
    requires ValidSelector(t, s) && PlainSelector(s)
    ensures FreeOf(SelectorTokens(s), ' ')
  {
    hide Consistent, HasSpaces;
    forall i | 0 <= i < |s.patterns| ensures ' ' !in KeyToken(s.patterns[i]) {
      assert ValidPattern(s.patterns[i]);
      NoSpaceIn(s.patterns[i].pattern);
    }
    forall i | 0 <= i < |s.channels| ensures ' ' !in s.channels[i] {
      NoSpaceIn(s.channels[i]);
    }
    assert FreeOf(RuleTexts(s.commands.rules), ' ') by { PlainIsFreeOfSpace(RuleTexts(s.commands.rules)); }
  }

  lemma HeadTokensHaveNoSpace(u: User)
    requires ValidPasswords(u.passwords)
    ensures FreeOf(HeadTokens(u), ' ')
    ensures forall i :: 0 <= i < |HeadTokens(u)| ==> !Opens(HeadTokens(u)[i])
  {
    forall i | 0 <= i < |u.passwords| ensures ' ' !in u.passwords[i] {
      assert ValidHash(u.passwords[i]);
    }
  }

  lemma {:induction false} BracketsHaveNoSpace(lists: seq<seq<string>>)
    requires AllMergeable(lists)
    ensures FreeOf(BracketAll(lists), ' ')
  {
    if lists != [] {
      PlainIsFreeOfSpace(lists[0]);
      BracketsHaveNoSpace(lists[1..]);
      assert FreeOf(Bracketed(lists[0]), ' ');
    }
  }

  lemma {:induction false} OthersAreMergeable(others: seq<Selector>)
    requires forall i :: 0 <= i < |others| ==> !others[i].root && PlainSelector(others[i])
    ensures AllMergeable(TokenLists(others))
  {
    hide SelectorTokens, NoFullStar, AllPlain, ClosesOnlyAtEnd;
  }

  lemma SplitDescription(cfg: Config, u: User)
    requires ValidUser(cfg, u) && PlainUser(u)
    ensures Split(DescribeUser(u), ' ') == UserTokens(u)
  {
    hide SelectorTokens, HeadTokens, BracketAll, DescribeUser, Join, ValidSelector, PlainSelector, AllMergeable;
    var others := u.selectors[1..];
    UserIsTokens(cfg, u);
    RootTokensHaveNoSpace(cfg.table, u.selectors[0]);
    HeadTokensHaveNoSpace(u);
    OthersAreMergeable(others) by { RootIsFirst(cfg, u); }
    BracketsHaveNoSpace(TokenLists(others));
    FieldsOfJoin(UserTokens(u), ' ');
    TokensNotEmpty(UserTokens(u));
  }

  lemma RootIsFirst(cfg: Config, u: User)
    requires ValidUser(cfg, u) && PlainUser(u)
    ensures u.selectors[0].root && forall i :: 0 < i < |u.selectors| ==> !u.selectors[i].root && PlainSelector(u.selectors[i])
  {
    hide ValidSelector, PlainSelector;
  }

  lemma TokensNotEmpty(tokens: seq<string>)
    requires |tokens| >= 2
    ensures Join(tokens, ' ') != ""
  {
    assert |Join(tokens, ' ')| >= 1;
  }

  lemma MergeDescription(cfg: Config, u: User)
    requires ValidUser(cfg, u) && PlainUser(u)
    ensures MergeArgs(UserTokens(u), None)
         == Some(HeadTokens(u) + SelectorTokens(u.selectors[0]) + Wholes(TokenLists(u.selectors[1..])))
  {
    hide SelectorTokens, HeadTokens, BracketAll, ValidSelector, PlainSelector, AllMergeable, MergeArgs, Wholes;
    var front, others := HeadTokens(u) + SelectorTokens(u.selectors[0]), u.selectors[1..];
    HeadTokensHaveNoSpace(u);
    RootTokensDoNotOpen(u.selectors[0]);
    OthersAreMergeable(others) by { RootIsFirst(cfg, u); }
    MergeBrackets(TokenLists(others));
    MergeUnbracketed(front, BracketAll(TokenLists(others)));
  }

  lemma RootTokensDoNotOpen(s: Selector)
    ensures forall i :: 0 <= i < |SelectorTokens(s)| ==> !Opens(SelectorTokens(s)[i])
  {
    SelectorTokensAreForRoot(s);
  }

  /** The root and the flags first, then the bracketed selectors. */
  lemma ApplyDescription(cfg: Config, u: User)
    requires ValidUser(cfg, u) && PlainUser(u) && HasNoFullStar(u)
    ensures var r := SetUserAll(cfg, NewUser(cfg),
                                HeadTokens(u) + SelectorTokens(u.selectors[0]) + Wholes(TokenLists(u.selectors[1..])));
            r.Ok? && EquivalentUser(u, r.value)
  {
    hide SelectorTokens, SetUser, SetUserAll, ValidSelector, NoFullStar, PlainSelector, Equivalent, Wholes, SetSelectorAll;
    var root, others := u.selectors[0], u.selectors[1..];
    var n2 := NewUser(cfg).(flags := u.flags, passwords := u.passwords);
    HeadTokensApply(cfg, u);
    RootIsFirst(cfg, u);
    ReadableOthers(cfg, u);
    SelectorTokensApply(cfg, root);
    SelectorTokensAreForRoot(root);
    var s := SetSelectorAll(cfg.table, n2.selectors[0], SelectorTokens(root)).value;
    RootTokensApply(cfg, n2, SelectorTokens(root), s);
    var n3 := n2.(selectors := [s]);
    SetUserAllConcat(cfg, NewUser(cfg), HeadTokens(u), SelectorTokens(root), n2);
    SetUserAllConcat(cfg, NewUser(cfg), HeadTokens(u) + SelectorTokens(root), Wholes(TokenLists(others)), n3);
    WholesApply(cfg, n3, others);
    var v := SetUserAll(cfg, n3, Wholes(TokenLists(others))).value;
    assert v.selectors == [s] + v.selectors[1..] by { assert v.selectors[..1] == [s]; }
    assert u.selectors == [root] + others;
  }

  lemma HeadTokensApply(cfg: Config, u: User)
    requires ValidFlags(u) && ValidPasswords(u.passwords)
    ensures SetUserAll(cfg, NewUser(cfg), HeadTokens(u)) == Ok(NewUser(cfg).(flags := u.flags, passwords := u.passwords))
  {
    hide SetUser, SetUserAll, ValidHash;
    var n := NewUser(cfg);
    var n1 := n.(flags := u.flags);
    FlagTokensApply(cfg, n, u.flags);
    assert n1.passwords + u.passwords == u.passwords;
    PasswordTokensApply(cfg, n1, u.passwords);
    SetUserAllConcat(cfg, n, FlagTokens(u.flags), PasswordTokens(u.passwords), n1);
  }

  lemma ReadableOthers(cfg: Config, u: User)
    requires ValidUser(cfg, u) && PlainUser(u) && HasNoFullStar(u)
    ensures forall i :: 0 <= i < |u.selectors[1..]| ==> Readable(cfg.table, u.selectors[1..][i])
  {
    hide ValidSelector, AllPlain, SelectorTokens, NoFullStar, ClosesOnlyAtEnd;
    forall i | 0 < i < |u.selectors| ensures Readable(cfg.table, u.selectors[i]) {
      assert PlainSelector(u.selectors[i]);
    }
  }

  /** What applying the words of a description to a new user comes to. */
  function Reread(cfg: Config, u: User): Result<User> {
    StringSetUser(cfg, NewUser(cfg), Split(DescribeUser(u), ' '))
  }

  lemma RereadIsApply(cfg: Config, u: User)
    requires ValidUser(cfg, u) && PlainUser(u)
    ensures Reread(cfg, u) == SetUserAll(cfg, NewUser(cfg),
                                HeadTokens(u) + SelectorTokens(u.selectors[0]) + Wholes(TokenLists(u.selectors[1..])))
  {
    hide SetUserAll, DescribeUser, SelectorTokens;
    SplitDescription(cfg, u);
    MergeDescription(cfg, u);
  }

  /** Describing a user, splitting on spaces and applying the words to a new user rebuilds an equivalent user. */
  lemma DescriptionRebuildsUser(cfg: Config, u: User)
    requires ValidUser(cfg, u) && PlainUser(u) && HasNoFullStar(u)
    ensures Reread(cfg, u).Ok? && EquivalentUser(u, Reread(cfg, u).value)
  {
    hide SetUserAll, EquivalentUser, SelectorTokens, Reread;
    RereadIsApply(cfg, u);
    ApplyDescription(cfg, u);
  }

  lemma {:induction false} SameDescriptions(a: seq<Selector>, b: seq<Selector>)
    requires EquivalentLists(a, b)
    ensures DescribeSelectors(a) == DescribeSelectors(b)
  {
    if a != [] {
      assert Equivalent(a[0], b[0]);
      SameDescriptions(a[1..], b[1..]);
      assert DescribeCommandRules(a[0].commands) == DescribeCommandRules(b[0].commands);
    }
  }

  /** The rebuilt user describes itself in the same words. */
  lemma DescriptionIsStable(cfg: Config, u: User)
    requires ValidUser(cfg, u) && PlainUser(u) && HasNoFullStar(u)
    ensures Reread(cfg, u).Ok? && DescribeUser(Reread(cfg, u).value) == DescribeUser(u)
  {
    hide Reread, ValidUser, Equivalent, FlagTokens, PasswordTokens, PlainUser, HasNoFullStar;
    DescriptionRebuildsUser(cfg, u);
    SameDescriptions(u.selectors, Reread(cfg, u).value.selectors);
  }
}
