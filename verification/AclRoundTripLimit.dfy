/**
 The exact limit of the round trip: a key pattern "*" stored with both permissions is printed as "~*", which
 reads back as the ALLKEYS flag.
 */
module AclRoundTripLimit {
  import opened AclText
  import opened AclCommands
  import opened AclSelector
  import opened AclReplay
  import opened AclUser
  import opened AclUserInvariant
  import opened AclDescribe
  import opened AclRoundTrip
  import opened AclSplitArgs

  lemma WordOf(t: Table, s: Selector, op: string)
    ensures SetSelector(t, s, op) == SetSelectorWord(t, s, op, CString(op))
  {
    hide SetSelectorWord;
  }

  lemma RootOpKeepsAllKeys(t: Table, s: Selector, op: string, s': Selector)
    requires op != "" && (Symbol(op[0]) || op == "resetchannels") && SetSelector(t, s, op) == Ok(s')
    ensures s.allKeys || op == "~*" ==> s'.allKeys
  {
    hide SetCommands, ParseKeyPattern, AddKeyPattern, HasSpaces, SetSelector, CString, IsCommandOp;
    if Symbol(op[0]) {
      WordOf(t, s, op);
      WordStarts(op);
      SymbolIsNoWord(CString(op));
      if op == "~*" {
        AllKeysWord(t, s);
      }
    } else {
      PlainWordOfSelector(t, s, op);
      DifferAt(op, "resetkeys", 5);
    }
  }

  lemma {:induction false} StarSetsAllKeys(t: Table, s: Selector, tokens: seq<string>, s': Selector)
    requires ForRoot(tokens) && SetSelectorAll(t, s, tokens) == Ok(s') && (s.allKeys || "~*" in tokens)
    ensures s'.allKeys
    decreases |tokens|
  {
    hide SetSelector;
    if tokens != [] {
      var next := SetSelector(t, s, tokens[0]).value;
      RootOpKeepsAllKeys(t, s, tokens[0], next);
      StarSetsAllKeys(t, next, tokens[1..], s');
    }
  }

  lemma FullStarIsToken(s: Selector)
    requires ValidKeys(s) && !NoFullStar(s)
    ensures "~*" in SelectorTokens(s) && !s.allKeys
  {
    var i :| 0 <= i < |s.patterns| && IsFullStar(s.patterns[i]);
    assert KeyTokens(s.patterns)[i] == "~*";
    assert SelectorTokens(s)[i] == "~*";
  }

  lemma {:induction false} RootResult(cfg: Config, u: User, tokens: seq<string>, v: User)
    requires |u.selectors| == 1 && ForRoot(tokens) && SetUserAll(cfg, u, tokens) == Ok(v)
    ensures |v.selectors| == 1 && SetSelectorAll(cfg.table, u.selectors[0], tokens) == Ok(v.selectors[0])
    decreases |tokens|
  {
    hide SetUser, SetSelector;
    if tokens != [] {
      SymbolIsForRoot(cfg, u, tokens[0]);
      RootResult(cfg, SetUser(cfg, u, tokens[0]).value, tokens[1..], v);
    }
  }

  lemma {:induction false} PrefixSucceeds(cfg: Config, u: User, a: seq<string>, b: seq<string>)
    requires u.selectors != [] && SetUserAll(cfg, u, a + b).Ok?
    ensures SetUserAll(cfg, u, a).Ok? && SetUserAll(cfg, SetUserAll(cfg, u, a).value, b) == SetUserAll(cfg, u, a + b)
    decreases |a|
  {
    hide SetUser;
    if a == [] {
      assert a + b == b;
    } else {
      assert (a + b)[1..] == a[1..] + b;
      PrefixSucceeds(cfg, SetUser(cfg, u, a[0]).value, a[1..], b);
    }
  }

  lemma BracketedOpResult(cfg: Config, u: User, op: string, v: User)
    requires u.selectors != [] && IsBracketed(op) && SetUser(cfg, u, op) == Ok(v)
    ensures SelectorFromOpSet(cfg, op).Ok? && v == u.(selectors := u.selectors + [SelectorFromOpSet(cfg, op).value])
  {
    hide SelectorFromOpSet;
    BracketIsNoWord(u, op);
  }

  ghost predicate MadeFrom(cfg: Config, u: User, lists: seq<seq<string>>, v: User) {
    && |v.selectors| == |u.selectors| + |lists| && v.selectors[..|u.selectors|] == u.selectors
    && forall i :: 0 <= i < |lists| ==> SelectorFromOpSet(cfg, Whole(lists[i])) == Ok(v.selectors[|u.selectors| + i])
  }

  lemma {:induction false} WholesResult(cfg: Config, u: User, lists: seq<seq<string>>, v: User)
    requires u.selectors != [] && SetUserAll(cfg, u, Wholes(lists)) == Ok(v)
    ensures MadeFrom(cfg, u, lists, v)
    decreases |lists|
  {
    hide SetUser, SelectorFromOpSet, Whole;
    if lists != [] {
      var op := Whole(lists[0]);
      assert Wholes(lists) == [op] + Wholes(lists[1..]);
      var next := SetUser(cfg, u, op).value;
      BracketedOpResult(cfg, u, op, next) by { WholeIsBracketed(lists[0]); }
      WholesResult(cfg, next, lists[1..], v);
      assert next.selectors == v.selectors[..|next.selectors|];
      assert u.selectors == next.selectors[..|u.selectors|];
    }
  }

  lemma WholeIsBracketed(tokens: seq<string>)
    ensures IsBracketed(Whole(tokens))
  {}

  /** A selector with a full-permission "*" never comes back equivalent. */
  lemma FullStarIsLost(cfg: Config, s: Selector, n: Selector, s': Selector)
    requires ValidSelector(cfg.table, s) && !NoFullStar(s) && SetSelectorAll(cfg.table, n, SelectorTokens(s)) == Ok(s')
    ensures !Equivalent(s, s')
  {
    hide SelectorTokens, SetSelectorAll, Consistent, ValidPatterns;
    FullStarIsToken(s);
    SelectorTokensAreForRoot(s);
    StarSetsAllKeys(cfg.table, n, SelectorTokens(s), s');
  }

  /** The k-th selector of a user that was read back was made from the tokens of the k-th selector described. */
  lemma RereadSelector(cfg: Config, u: User, k: nat)
    requires ValidUser(cfg, u) && PlainUser(u) && Reread(cfg, u).Ok? && k < |u.selectors|
    ensures k < |Reread(cfg, u).value.selectors|
    ensures SetSelectorAll(cfg.table, NewSelector(k == 0, cfg.pubsubDefault), SelectorTokens(u.selectors[k]))
         == Ok(Reread(cfg, u).value.selectors[k])
  {
    hide SetUserAll, SetSelectorAll, SelectorTokens, Reread, ValidSelector, Wholes, SelectorFromOpSet;
    var n, v := NewUser(cfg), Reread(cfg, u).value;
    var root, lists := SelectorTokens(u.selectors[0]), TokenLists(u.selectors[1..]);
    var n2 := n.(flags := u.flags, passwords := u.passwords);
    RereadIsApply(cfg, u);
    HeadTokensApply(cfg, u);
    SetUserAllConcat(cfg, n, HeadTokens(u), root + Wholes(lists), n2);
    assert HeadTokens(u) + root + Wholes(lists) == HeadTokens(u) + (root + Wholes(lists));
    PrefixSucceeds(cfg, n2, root, Wholes(lists));
    SelectorTokensAreForRoot(u.selectors[0]);
    var n3 := SetUserAll(cfg, n2, root).value;
    RootResult(cfg, n2, root, n3);
    WholesResult(cfg, n3, lists, v);
    if k == 0 {
      assert v.selectors[..1][0] == v.selectors[0];
    } else {
      RootIsFirst(cfg, u);
      assert u.selectors[1..][k - 1] == u.selectors[k];
      assert lists[k - 1] == SelectorTokens(u.selectors[k]);
      WholeIsRead(cfg, u.selectors[k]);
    }
  }

  lemma WholeIsRead(cfg: Config, s: Selector)
    requires PlainSelector(s) && !s.root
    ensures IsBracketed(Whole(SelectorTokens(s)))
    ensures SelectorFromOpSet(cfg, Whole(SelectorTokens(s)))
         == SetSelectorAll(cfg.table, NewSelector(false, cfg.pubsubDefault), SelectorTokens(s))
  {
    hide SetSelectorAll, SelectorTokens, AllPlain;
    var op := Whole(SelectorTokens(s));
    assert op[1..|op| - 1] == Join(SelectorTokens(s), ' ');
    PlainWordsSurvive(SelectorTokens(s));
  }

  /** A plain user is rebuilt by its description exactly if no pattern list holds "*" with both permissions. */
  lemma RebuiltIffNoFullStar(cfg: Config, u: User)
    requires ValidUser(cfg, u) && PlainUser(u)
    ensures Reread(cfg, u).Ok? && EquivalentUser(u, Reread(cfg, u).value) <==> HasNoFullStar(u)
  {
    hide Reread, SelectorTokens, SetSelectorAll, ValidSelector, NoFullStar, Equivalent, PlainSelector;
    if HasNoFullStar(u) {
      DescriptionRebuildsUser(cfg, u);
    } else if Reread(cfg, u).Ok? {
      var k :| 0 <= k < |u.selectors| && !NoFullStar(u.selectors[k]);
      RereadSelector(cfg, u, k);
      FullStarIsLost(cfg, u.selectors[k], NewSelector(k == 0, cfg.pubsubDefault), Reread(cfg, u).value.selectors[k]);
    }
  }
}
