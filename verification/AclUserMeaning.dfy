/** What the modifiers of ACLSetUser do to the flags, the passwords and the selectors of a user. */
module AclUserMeaning {
  import opened AclText
  import opened AclCommands
  import opened AclSelector
  import opened AclReplay
  import opened AclUser
  import opened AclUserInvariant
  import opened AclRoundTrip
  import opened AclSplitArgs

  lemma PasswordWord(cfg: Config, u: User, op: string)
    requires u.selectors != [] && op != "" && op[0] in {'>', '<', '#', '!'}
    ensures SetUser(cfg, u, op) ==
            if op[0] == '>' then Ok(AddPassword(u, cfg.hash(op[1..])))
            else if op[0] == '<' then RemovePassword(u, cfg.hash(op[1..]))
            else if !ValidHash(op[1..]) then Err(EBADMSG)
            else if op[0] == '#' then Ok(AddPassword(u, op[1..]))
            else RemovePassword(u, op[1..])
  {
    hide CString, EqNoCase, FlagWord, OnRoot, SelectorFromOpSet, ValidHash, AddPassword, RemovePassword, SetUserOnceAll;
    WordStarts(op);
    FlagWordIsNone(u, CString(op));
    DifferAt(CString(op), "reset", 0);
  }

  /** The hash a password modifier is about; none for one that is no valid hash. */
  function HashOf(cfg: Config, op: string): Option<string>
    requires op != ""
  {
    if op[0] == '>' || op[0] == '<' then Some(cfg.hash(op[1..]))
    else if |op| == 65 && forall i :: 1 <= i < 65 ==> op[i] in "0123456789abcdef" then Some(op[1..])
    else None
  }

  lemma HexDigit(c: char)
    ensures c in "0123456789abcdef" <==> 'a' <= c <= 'f' || '0' <= c <= '9'
  {
    assert "0123456789abcdef" == ['0', '1', '2', '3', '4', '5', '6', '7', '8', '9', 'a', 'b', 'c', 'd', 'e', 'f'];
  }

  lemma HashIs(cfg: Config, op: string)
    requires op != "" && op[0] != '>' && op[0] != '<'
    ensures HashOf(cfg, op) == if ValidHash(op[1..]) then Some(op[1..]) else None
  {
    forall c: char ensures c in "0123456789abcdef" <==> 'a' <= c <= 'f' || '0' <= c <= '9' {
      HexDigit(c);
    }
    assert forall i :: 1 <= i < |op| ==> op[i] == op[1..][i - 1];
  }

  /** ">p" and "#h" add the hash behind the others unless it is there, and a password is needed from now on. */
  lemma AddingMeans(cfg: Config, u: User, op: string)
    requires u.selectors != [] && op != "" && op[0] in {'>', '#'}
    ensures var r, h := SetUser(cfg, u, op), HashOf(cfg, op);
            if h.None? then r == Err(EBADMSG)
            else
              && r.Ok? && h.value in r.value.passwords && !r.value.flags.nopass
              && r.value.passwords == (if h.value in u.passwords then u.passwords else u.passwords + [h.value])
              && r.value.flags == u.flags.(nopass := false) && r.value.selectors == u.selectors
  {
    hide SetUser, ValidHash, HashOf;
    PasswordWord(cfg, u, op);
    if op[0] == '#' {
      HashIs(cfg, op);
    } else {
      HashOfText(cfg, op);
    }
  }

  lemma HashOfText(cfg: Config, op: string)
    requires op != "" && (op[0] == '>' || op[0] == '<')
    ensures HashOf(cfg, op) == Some(cfg.hash(op[1..]))
  {}

  /** "<p" and "!h" take out the hash, and leave the others in order; a hash that is not there is an error. */
  lemma RemovingMeans(cfg: Config, u: User, op: string)
    requires u.selectors != [] && ValidPasswords(u.passwords) && op != "" && op[0] in {'<', '!'}
    ensures var r, h := SetUser(cfg, u, op), HashOf(cfg, op);
            if h.None? then r == Err(EBADMSG)
            else if h.value !in u.passwords then r == Err(ENODEV)
            else
              && r.Ok? && h.value !in r.value.passwords
              && (exists k :: 0 <= k < |u.passwords| && u.passwords[k] == h.value
                    && r.value.passwords == u.passwords[..k] + u.passwords[k + 1..])
              && r.value.flags == u.flags && r.value.selectors == u.selectors
  {
    hide SetUser, ValidHash, HashOf, RemoveFirst;
    PasswordWord(cfg, u, op);
    if op[0] == '!' {
      HashIs(cfg, op);
    } else {
      HashOfText(cfg, op);
    }
    var h := HashOf(cfg, op);
    if h.Some? && h.value in u.passwords {
      RemoveFirstKeepsValid(u.passwords, h.value);
      var k := RemovedAt(u.passwords, h.value);
    }
  }

  lemma {:induction false} RemovedAt(list: seq<string>, x: string) returns (k: nat)
    requires x in list
    ensures k < |list| && list[k] == x && RemoveFirst(list, x) == list[..k] + list[k + 1..]
  {
    if list[0] == x {
      k := 0;
    } else {
      var j := RemovedAt(list[1..], x);
      k := j + 1;
      assert [list[0]] + (list[1..][..j] + list[1..][j + 1..]) == list[..k] + list[k + 1..];
    }
  }

  /** The words for the flags. Exactly one of on and off, and of sanitizing and not, is set; both password words forget
      every password. */
  lemma FlagWordsMean(cfg: Config, u: User)
    requires u.selectors != []
    ensures SetUser(cfg, u, "on") == Ok(u.(flags := u.flags.(enabled := true, disabled := false)))
    ensures SetUser(cfg, u, "off") == Ok(u.(flags := u.flags.(enabled := false, disabled := true)))
    ensures SetUser(cfg, u, "nopass") == Ok(u.(flags := u.flags.(nopass := true), passwords := []))
    ensures SetUser(cfg, u, "resetpass") == Ok(u.(flags := u.flags.(nopass := false), passwords := []))
    ensures SetUser(cfg, u, "sanitize-payload") == Ok(u.(flags := u.flags.(sanitize := true, skipSanitize := false)))
    ensures SetUser(cfg, u, "skip-sanitize-payload") == Ok(u.(flags := u.flags.(sanitize := false, skipSanitize := true)))
  {
    hide SetUser, SetUserOnce;
    FlagTokenApplies(cfg, u);
    SanitizeTokenApplies(cfg, u);
    FlagsOff(cfg, u);
    PlainWordOfUser(cfg, u, "resetpass");
  }

  /** Any other word goes to the root selector; the others keep their place. */
  lemma RootWordMeans(cfg: Config, u: User, op: string)
    requires u.selectors != [] && op != "" && Symbol(op[0])
    ensures var r := SetSelector(cfg.table, u.selectors[0], op);
            match SetUser(cfg, u, op)
            case Err(e) => r == Err(e)
            case Ok(v) => r.Ok? && v == u.(selectors := [r.value] + u.selectors[1..])
  {
    hide SetUser, SetSelector;
    SymbolIsForRoot(cfg, u, op);
  }

  /** A bracketed selector is a new one to which the words inside are given; "clearselectors" takes all of them off. */
  lemma SelectorWordsMean(cfg: Config, u: User, op: string)
    requires u.selectors != [] && IsBracketed(op)
    ensures var made := match SplitArgs(op[1..|op| - 1])
                        case None => Ok(NewSelector(false, cfg.pubsubDefault))
                        case Some(words) => SetSelectorAll(cfg.table, NewSelector(false, cfg.pubsubDefault), words);
            match SetUser(cfg, u, op)
            case Err(e) => made == Err(e)
            case Ok(v) => made.Ok? && v == u.(selectors := u.selectors + [made.value])
    ensures SetUser(cfg, u, "clearselectors") == Ok(u.(selectors := [u.selectors[0]]))
  {
    hide SetSelectorAll, SplitArgs, CString, EqNoCase, FlagWord;
    BracketIsNoWord(u, op);
    ClearSelectors(cfg, u);
    PlainWordOfUser(cfg, u, "clearselectors");
    DifferAt("clearselectors", "reset", 0);
    assert u.selectors[..1] == [u.selectors[0]];
  }
}
