/** What every modifier keeps, and what "reset" and a failed ACL string come to. */
module AclUserInvariant {
  import opened AclText
  import opened AclCommands
  import opened AclSelector
  import opened AclReplay
  import opened AclUser
  import opened AclSplitArgs

  lemma NewUserIsValid(cfg: Config)
    ensures ValidUser(cfg, NewUser(cfg))
  {
    BaseIsConsistent(cfg.table, false);
  }

  function PatternNames(patterns: seq<KeyPattern>): set<string> {
    set p | p in patterns :: p.pattern
  }

  lemma PatternNamesCons(p: KeyPattern, rest: seq<KeyPattern>)
    ensures PatternNames([p] + rest) == {p.pattern} + PatternNames(rest)
  {
    assert forall x :: x in [p] + rest <==> x == p || x in rest;
  }

  lemma NoPatternsAreValid()
    ensures ValidPatterns([])
  {}

  lemma ValidPatternsTail(p: KeyPattern, rest: seq<KeyPattern>)
    requires ValidPatterns([p] + rest)
    ensures ValidPattern(p) && p.pattern !in PatternNames(rest) && ValidPatterns(rest)
  {
    hide ValidPattern;
    var all := [p] + rest;
    assert all[0] == p;
    assert forall i :: 0 <= i < |rest| ==> all[i + 1] == rest[i];
    forall i, j | 0 <= i < j < |rest| ensures rest[i].pattern != rest[j].pattern { assert all[i + 1] != all[j + 1]; }
  }

  lemma ValidPatternsCons(p: KeyPattern, rest: seq<KeyPattern>)
    requires ValidPattern(p) && p.pattern !in PatternNames(rest) && ValidPatterns(rest)
    ensures ValidPatterns([p] + rest)
  {
    hide ValidPattern;
    assert forall i :: 0 <= i < |rest| ==> rest[i].pattern in PatternNames(rest);
  }

  lemma {:induction false} AddKeyPatternKeepsValid(patterns: seq<KeyPattern>, p: KeyPattern)
    requires ValidPatterns(patterns) && ValidPattern(p)
    ensures ValidPatterns(AddKeyPattern(patterns, p))
    ensures PatternNames(AddKeyPattern(patterns, p)) == PatternNames(patterns) + {p.pattern}
  {
    hide ValidPatterns;
    if patterns == [] {
      ValidPatternsCons(p, []) by { NoPatternsAreValid(); }
      PatternNamesCons(p, []);
      assert [p] + [] == [p];
    } else {
      var first, rest := patterns[0], patterns[1..];
      assert patterns == [first] + rest;
      PatternNamesCons(first, rest);
      ValidPatternsTail(first, rest);
      if first.pattern == p.pattern {
        var merged := KeyPattern(p.pattern, first.read || p.read, first.write || p.write);
        PatternNamesCons(merged, rest);
        ValidPatternsCons(merged, rest);
      } else {
        AddKeyPatternKeepsValid(rest, p);
        PatternNamesCons(first, AddKeyPattern(rest, p));
        ValidPatternsCons(first, AddKeyPattern(rest, p));
      }
    }
  }

  /** A word without a NUL is compared as it is. */
  lemma PlainWordOfSelector(t: Table, s: Selector, op: string)
    requires '\0' !in op
    ensures SetSelector(t, s, op) == SetSelectorWord(t, s, op, op)
  {
    hide SetSelectorWord;
  }

  lemma PlainWordOfUser(cfg: Config, u: User, op: string)
    requires u.selectors != [] && '\0' !in op
    ensures SetUserOnce(cfg, u, op) == SetUserWord(cfg, u, op, op)
    ensures SetUser(cfg, u, op) == if EqNoCase(op, "reset") then SetUserOnceAll(cfg, u, ResetOps(cfg)) else SetUserOnce(cfg, u, op)
  {
    hide SetUserWord, SetUserOnceAll, EqNoCase;
  }

  lemma SetSelectorKeepsValid(t: Table, s: Selector, op: string, s': Selector)
    requires ValidTable(t) && ValidSelector(t, s) && SetSelector(t, s, op) == Ok(s')
    ensures ValidSelector(t, s') && s'.root == s.root
  {
    SetSelectorKeepsCommands(t, s, op, s');
    SetSelectorKeepsKeys(t, s, op, s');
    SetSelectorKeepsChannels(t, s, op, s');
  }

  lemma SetSelectorKeepsCommands(t: Table, s: Selector, op: string, s': Selector)
    requires ValidTable(t) && Consistent(t, s.commands) && SetSelector(t, s, op) == Ok(s')
    ensures Consistent(t, s'.commands) && s'.root == s.root
  {
    hide SetCommands, ParseKeyPattern, AddKeyPattern, HasSpaces, Consistent, ValidTable;
    if s'.commands != s.commands {
      SetCommandsKeepsConsistent(t, s.commands, CString(op), s'.commands);
    }
  }

  lemma ParsedPatternIsValid(op: string)
    requires op != "" && ParseKeyPattern(op).Ok?
    ensures ValidPattern(ParseKeyPattern(op).value)
  {}

  lemma SetSelectorKeepsKeys(t: Table, s: Selector, op: string, s': Selector)
    requires ValidKeys(s) && SetSelector(t, s, op) == Ok(s')
    ensures ValidKeys(s')
  {
    hide SetCommands, ParseKeyPattern, AddKeyPattern, HasSpaces, ValidPattern, CString, EqNoCase, IsCommandOp;
    if s'.patterns != s.patterns && s'.patterns != [] {
      ParsedPatternIsValid(op);
      AddKeyPatternKeepsValid(s.patterns, ParseKeyPattern(op).value);
    }
  }

  lemma StarWord(op: string)
    requires op != "" && op[0] == '&'
    ensures op[1..] == "*" ==> EqNoCase(CString(op), "&*")
  {
    assert op[1..] == "*" ==> op == "&*";
  }

  lemma SetSelectorKeepsChannels(t: Table, s: Selector, op: string, s': Selector)
    requires ValidChannels(s) && SetSelector(t, s, op) == Ok(s')
    ensures ValidChannels(s')
  {
    hide SetCommands, ParseKeyPattern, AddKeyPattern, HasSpaces, CString, EqNoCase, IsCommandOp;
    if s'.channels != s.channels && s'.channels != [] {
      StarWord(op);
      assert op == "&" + op[1..];
    }
  }

  lemma {:induction false} SetSelectorAllKeepsValid(t: Table, s: Selector, ops: seq<string>, s': Selector)
    requires ValidTable(t) && ValidSelector(t, s) && SetSelectorAll(t, s, ops) == Ok(s')
    ensures ValidSelector(t, s') && s'.root == s.root
    decreases |ops|
  {
    if ops != [] {
      SetSelectorKeepsValid(t, s, ops[0], SetSelector(t, s, ops[0]).value);
      SetSelectorAllKeepsValid(t, SetSelector(t, s, ops[0]).value, ops[1..], s');
    }
  }

  lemma {:induction false} RemoveFirstKeepsValid(list: seq<string>, x: string)
    requires ValidPasswords(list) && x in list
    ensures ValidPasswords(RemoveFirst(list, x))
    ensures forall y :: y in RemoveFirst(list, x) <==> y in list && y != x
  {
    var r := RemoveFirst(list, x);
    assert list == [list[0]] + list[1..];
    if list[0] != x {
      assert ValidPasswords(list[1..]);
      RemoveFirstKeepsValid(list[1..], x);
      assert r == [list[0]] + RemoveFirst(list[1..], x);
      assert list[0] !in list[1..];
      assert forall i :: 0 < i < |r| ==> r[i] == RemoveFirst(list[1..], x)[i - 1] && r[i] in list[1..];
    }
  }

  lemma FlagWordKeepsValid(u: User, op: string)
    requires ValidFlags(u) && ValidPasswords(u.passwords) && FlagWord(u, op).Some?
    ensures var u' := FlagWord(u, op).value;
            ValidFlags(u') && ValidPasswords(u'.passwords) && u'.selectors == u.selectors
  {}

  lemma OnRootKeepsValid(cfg: Config, u: User, op: string, u': User)
    requires ValidConfig(cfg) && ValidUser(cfg, u) && OnRoot(cfg, u, op) == Ok(u')
    ensures ValidUser(cfg, u')
  {
    hide SetSelector, ValidSelector, ValidTable, ValidHash;
    SetSelectorKeepsValid(cfg.table, u.selectors[0], op, u'.selectors[0]);
    assert forall i :: 0 < i < |u'.selectors| ==> u'.selectors[i] == u.selectors[i];
  }

  lemma PasswordOpsKeepValid(cfg: Config, u: User, hash: string)
    requires ValidUser(cfg, u) && ValidHash(hash)
    ensures ValidUser(cfg, AddPassword(u, hash))
    ensures RemovePassword(u, hash).Ok? ==> ValidUser(cfg, RemovePassword(u, hash).value)
  {
    if hash in u.passwords {
      RemoveFirstKeepsValid(u.passwords, hash);
    }
  }

  lemma AddedSelectorKeepsValid(cfg: Config, u: User, op: string)
    requires ValidConfig(cfg) && ValidUser(cfg, u) && |op| >= 2 && SelectorFromOpSet(cfg, op).Ok?
    ensures ValidUser(cfg, u.(selectors := u.selectors + [SelectorFromOpSet(cfg, op).value]))
  {
    BaseIsConsistent(cfg.table, false);
    var argv := SplitArgs(op[1..|op| - 1]);
    if argv.Some? {
      SetSelectorAllKeepsValid(cfg.table, NewSelector(false, cfg.pubsubDefault), argv.value,
                               SelectorFromOpSet(cfg, op).value);
    }
  }

  lemma SetUserOnceKeepsValid(cfg: Config, u: User, op: string, u': User)
    requires ValidConfig(cfg) && ValidUser(cfg, u) && SetUserOnce(cfg, u, op) == Ok(u')
    ensures ValidUser(cfg, u')
  {
    hide CString, EqNoCase, FlagWord, OnRoot, AddPassword, RemovePassword, SelectorFromOpSet, ValidHash, ValidSelector;
    var word := CString(op);
    if op == "" {
    } else if FlagWord(u, word).Some? {
      FlagWordKeepsValid(u, word);
    } else if op[0] == '>' || op[0] == '<' {
      PasswordOpsKeepValid(cfg, u, cfg.hash(op[1..]));
    } else if op[0] == '#' || op[0] == '!' {
      PasswordOpsKeepValid(cfg, u, op[1..]);
    } else if IsBracketed(op) {
      AddedSelectorKeepsValid(cfg, u, op);
    } else if EqNoCase(word, "clearselectors") {
    } else {
      OnRootKeepsValid(cfg, u, op, u');
    }
  }

  lemma {:induction false} SetUserOnceAllKeepsValid(cfg: Config, u: User, ops: seq<string>, u': User)
    requires ValidConfig(cfg) && ValidUser(cfg, u) && SetUserOnceAll(cfg, u, ops) == Ok(u')
    ensures ValidUser(cfg, u')
    decreases |ops|
  {
    if ops != [] {
      var v := SetUserOnce(cfg, u, ops[0]).value;
      SetUserOnceKeepsValid(cfg, u, ops[0], v);
      SetUserOnceAllKeepsValid(cfg, v, ops[1..], u');
    }
  }

  /** Every modifier that is accepted keeps the user valid. */
  lemma SetUserKeepsValid(cfg: Config, u: User, op: string, u': User)
    requires ValidConfig(cfg) && ValidUser(cfg, u) && SetUser(cfg, u, op) == Ok(u')
    ensures ValidUser(cfg, u')
  {
    hide SetUserOnce, SetUserOnceAll, EqNoCase, CString, ValidUser;
    if EqNoCase(CString(op), "reset") {
      SetUserOnceAllKeepsValid(cfg, u, ResetOps(cfg), u');
    } else {
      SetUserOnceKeepsValid(cfg, u, op, u');
    }
  }

  lemma FlagWordIsNone(u: User, op: string)
    requires op != "" && LowerChar(op[0]) !in {'o', 's', 'n', 'r'}
    ensures FlagWord(u, op).None?
  {
    DifferAt(op, "on", 0);
    DifferAt(op, "off", 0);
    DifferAt(op, "skip-sanitize-payload", 0);
    DifferAt(op, "sanitize-payload", 0);
    DifferAt(op, "nopass", 0);
    DifferAt(op, "resetpass", 0);
  }

  lemma ResetKeysOnRoot(cfg: Config, u: User)
    requires u.selectors != []
    ensures SetUserOnce(cfg, u, "resetkeys")
         == Ok(u.(selectors := [u.selectors[0].(allKeys := false, patterns := [])] + u.selectors[1..]))
  {
    hide SetUserOnce, SetSelector, CString;
    PlainWordOfUser(cfg, u, "resetkeys");
    PlainWordOfSelector(cfg.table, u.selectors[0], "resetkeys");
    DifferAt("resetkeys", "resetpass", 5);
  }

  lemma ResetChannelsOnRoot(cfg: Config, u: User)
    requires u.selectors != []
    ensures SetUserOnce(cfg, u, "resetchannels")
         == Ok(u.(selectors := [u.selectors[0].(allChannels := false, channels := [])] + u.selectors[1..]))
  {
    hide SetUserOnce, SetSelector, CString;
    PlainWordOfUser(cfg, u, "resetchannels");
    PlainWordOfSelector(cfg.table, u.selectors[0], "resetchannels");
  }

  lemma AllChannelsOnRoot(cfg: Config, u: User)
    requires u.selectors != []
    ensures SetUserOnce(cfg, u, "allchannels")
         == Ok(u.(selectors := [u.selectors[0].(allChannels := true, channels := [])] + u.selectors[1..]))
  {
    hide SetUserOnce, SetSelector, CString;
    PlainWordOfUser(cfg, u, "allchannels");
    PlainWordOfSelector(cfg.table, u.selectors[0], "allchannels");
  }

  lemma ClearSelectors(cfg: Config, u: User)
    requires u.selectors != []
    ensures SetUserOnce(cfg, u, "clearselectors") == Ok(u.(selectors := u.selectors[..1]))
  {
    hide SetUserOnce, SetSelector, CString;
    PlainWordOfUser(cfg, u, "clearselectors");
  }

  lemma NoCommandsWord(t: Table, s: Selector)
    ensures SetSelector(t, s, "-@all") == Ok(s.(commands := NoCommands))
  {
    hide SetSelector, CString;
    PlainWordOfSelector(t, s, "-@all");
    DifferAt("-@all", "+@all", 0);
  }

  lemma NoCommandsOnRoot(cfg: Config, u: User)
    requires u.selectors != []
    ensures SetUserOnce(cfg, u, "-@all") == Ok(u.(selectors := [u.selectors[0].(commands := NoCommands)] + u.selectors[1..]))
  {
    hide SetUserOnce, SetSelector, CString;
    PlainWordOfUser(cfg, u, "-@all");
    FlagWordIsNone(u, "-@all");
    NoCommandsWord(cfg.table, u.selectors[0]);
  }

  lemma FlagsOff(cfg: Config, u: User)
    requires u.selectors != []
    ensures SetUserOnce(cfg, u, "off") == Ok(u.(flags := u.flags.(disabled := true, enabled := false)))
    ensures SetUserOnce(cfg, u, "sanitize-payload") == Ok(u.(flags := u.flags.(sanitize := true, skipSanitize := false)))
    ensures SetUserOnce(cfg, u, "resetpass") == Ok(u.(flags := u.flags.(nopass := false), passwords := []))
  {
    hide SetUserOnce, SetSelector, CString;
    PlainWordOfUser(cfg, u, "off");
    PlainWordOfUser(cfg, u, "sanitize-payload");
    PlainWordOfUser(cfg, u, "resetpass");
  }

  lemma SetFirst(cfg: Config, u: User, op: string, ops: seq<string>, v: User)
    requires u.selectors != [] && v.selectors != [] && SetUserOnce(cfg, u, op) == Ok(v)
    ensures SetUserOnceAll(cfg, u, [op] + ops) == SetUserOnceAll(cfg, v, ops)
  {
    assert ([op] + ops)[1..] == ops;
  }

  /** The last four steps of "reset". */
  lemma ResetTail(cfg: Config, u: User)
    requires u.selectors != [] && u.passwords == [] && !u.flags.nopass
    requires u.selectors[0] == NewSelector(true, cfg.pubsubDefault).(commands := u.selectors[0].commands)
    ensures SetUserOnceAll(cfg, u, ["off", "sanitize-payload", "clearselectors", "-@all"]) == Ok(NewUser(cfg))
  {
    hide SetUserOnce, CString, EqNoCase;
    var u1 := u.(flags := u.flags.(disabled := true, enabled := false));
    FlagsOff(cfg, u);
    SetFirst(cfg, u, "off", ["sanitize-payload", "clearselectors", "-@all"], u1);
    var u2 := u1.(flags := u1.flags.(sanitize := true, skipSanitize := false));
    FlagsOff(cfg, u1);
    SetFirst(cfg, u1, "sanitize-payload", ["clearselectors", "-@all"], u2);
    var u3 := u2.(selectors := u2.selectors[..1]);
    ClearSelectors(cfg, u2);
    SetFirst(cfg, u2, "clearselectors", ["-@all"], u3);
    NoCommandsOnRoot(cfg, u3);
    assert [u3.selectors[0].(commands := NoCommands)] + u3.selectors[1..] == NewUser(cfg).selectors;
    SetFirst(cfg, u3, "-@all", [], NewUser(cfg));
  }

  /** "reset" brings a user back to what it was when created. */
  lemma ResetMakesNew(cfg: Config, u: User, op: string)
    requires ValidUser(cfg, u) && EqNoCase(CString(op), "reset")
    ensures SetUser(cfg, u, op) == Ok(NewUser(cfg))
  {
    hide SetUserOnce, CString, EqNoCase, ValidSelector, ValidPasswords, ValidHash;
    var tail := ["off", "sanitize-payload", "clearselectors", "-@all"];
    var fromChannels := (if cfg.pubsubDefault then ["allchannels"] else []) + tail;
    var u1 := u.(flags := u.flags.(nopass := false), passwords := []);
    FlagsOff(cfg, u);
    SetFirst(cfg, u, "resetpass", ["resetkeys", "resetchannels"] + fromChannels, u1);
    var u2 := u1.(selectors := [u1.selectors[0].(allKeys := false, patterns := [])] + u1.selectors[1..]);
    ResetKeysOnRoot(cfg, u1);
    SetFirst(cfg, u1, "resetkeys", ["resetchannels"] + fromChannels, u2);
    var u3 := u2.(selectors := [u2.selectors[0].(allChannels := false, channels := [])] + u2.selectors[1..]);
    ResetChannelsOnRoot(cfg, u2);
    SetFirst(cfg, u2, "resetchannels", fromChannels, u3);
    assert ["resetkeys"] + (["resetchannels"] + fromChannels) == ["resetkeys", "resetchannels"] + fromChannels;
    assert ["resetpass"] + (["resetkeys", "resetchannels"] + fromChannels) == ResetOps(cfg);
    if cfg.pubsubDefault {
      var u4 := u3.(selectors := [u3.selectors[0].(allChannels := true, channels := [])] + u3.selectors[1..]);
      AllChannelsOnRoot(cfg, u3);
      SetFirst(cfg, u3, "allchannels", tail, u4);
      ResetTail(cfg, u4);
    } else {
      assert fromChannels == tail;
      ResetTail(cfg, u3);
    }
  }
}
