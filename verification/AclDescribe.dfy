/**
 Describing a user and applying the description to a new user rebuilds it.

 The description is first shown to be a list of tokens joined by single spaces; then splitting, merging the
 bracketed tokens and applying them one by one is followed through.
 */
module AclDescribe {
  import opened AclText
  import opened AclCommands
  import opened AclSelector
  import opened AclReplay
  import opened AclUser

  // ---- the tokens of a description ----

  function CommandTokens(p: CommandPerms): seq<string> {
    [if RESERVED_BIT in p.bits then "+@all" else "-@all"] + RuleTexts(p.rules)
  }

  function SelectorTokens(s: Selector): (r: seq<string>)
    ensures |r| >= 2
  {
    (if s.allKeys then ["~*"] else KeyTokens(s.patterns))
    + (if s.allChannels then ["&*"] else ["resetchannels"] + ChannelTokens(s.channels))
    + CommandTokens(s.commands)
  }

  function Bracketed(tokens: seq<string>): seq<string>
    requires |tokens| >= 2
  {
    ["(" + tokens[0]] + tokens[1..|tokens| - 1] + [tokens[|tokens| - 1] + ")"]
  }

  /** The tokens of bracketed selectors, given the tokens of each. */
  function BracketAll(lists: seq<seq<string>>): seq<string>
    requires forall i :: 0 <= i < |lists| ==> |lists[i]| >= 2
  {
    if lists == [] then [] else Bracketed(lists[0]) + BracketAll(lists[1..])
  }

  function TokenLists(selectors: seq<Selector>): (r: seq<seq<string>>)
    ensures |r| == |selectors| && forall i :: 0 <= i < |r| ==> |r[i]| >= 2 && r[i] == SelectorTokens(selectors[i])
  {
    if selectors == [] then [] else [SelectorTokens(selectors[0])] + TokenLists(selectors[1..])
  }

  function HeadTokens(u: User): seq<string> {
    FlagTokens(u.flags) + PasswordTokens(u.passwords)
  }

  function UserTokens(u: User): seq<string>
    requires u.selectors != []
  {
    HeadTokens(u) + SelectorTokens(u.selectors[0]) + BracketAll(TokenLists(u.selectors[1..]))
  }

  lemma {:induction false} SpacedConcat(a: seq<string>, b: seq<string>)
    ensures Spaced(a + b) == Spaced(a) + Spaced(b)
  {
    if a == [] {
      assert a + b == b;
    } else {
      SpacedConcat(a[1..], b);
      assert (a + b)[1..] == a[1..] + b;
    }
  }

  lemma {:induction false} SpacedThenJoin(a: seq<string>, b: seq<string>)
    requires b != []
    ensures Spaced(a) + Join(b, ' ') == Join(a + b, ' ')
  {
    if a == [] {
      assert a + b == b;
    } else {
      SpacedThenJoin(a[1..], b);
      assert (a + b)[1..] == a[1..] + b;
    }
  }

  lemma CommandRulesAreTokens(p: CommandPerms)
    ensures DescribeCommandRules(p) == Join(CommandTokens(p), ' ')
  {
    var base, texts := if RESERVED_BIT in p.bits then "+@all" else "-@all", RuleTexts(p.rules);
    if p.rules == [] {
      assert texts == [] && RulesText(p.rules) == "";
    } else {
      assert Join(texts, ' ') != "" by { assert texts[0] == p.rules[0].Text(); }
      assert ([base] + texts)[1..] == texts;
    }
  }

  lemma ThreeParts(a: seq<string>, b: seq<string>, c: seq<string>)
    requires c != []
    ensures Spaced(a) + Spaced(b) + Join(c, ' ') == Join(a + b + c, ' ')
  {
    SpacedConcat(a, b);
    SpacedThenJoin(a + b, c);
  }

  lemma ChannelsAreTokens(channels: seq<string>)
    ensures Spaced(["resetchannels"] + ChannelTokens(channels)) == "resetchannels " + Spaced(ChannelTokens(channels))
  {
    assert (["resetchannels"] + ChannelTokens(channels))[1..] == ChannelTokens(channels);
  }

  lemma SelectorIsTokens(s: Selector)
    ensures DescribeSelector(s) == Join(SelectorTokens(s), ' ')
  {
    hide Join, KeyTokens, ChannelTokens, DescribeCommandRules;
    var keys := if s.allKeys then ["~*"] else KeyTokens(s.patterns);
    var channels := if s.allChannels then ["&*"] else ["resetchannels"] + ChannelTokens(s.channels);
    CommandRulesAreTokens(s.commands);
    ChannelsAreTokens(s.channels);
    ThreeParts(keys, channels, CommandTokens(s.commands));
    assert Spaced(keys) == if s.allKeys then "~* " else Spaced(KeyTokens(s.patterns));
  }

  lemma {:induction false} JoinPrefix(prefix: string, first: string, rest: seq<string>)
    ensures Join([prefix + first] + rest, ' ') == prefix + Join([first] + rest, ' ')
  {
    assert ([prefix + first] + rest)[1..] == rest == ([first] + rest)[1..];
  }

  lemma {:induction false} BracketedJoin(tokens: seq<string>)
    requires |tokens| >= 2
    ensures Join(Bracketed(tokens), ' ') == "(" + Join(tokens, ' ') + ")"
  {
    hide Join;
    var n := |tokens| - 1;
    var first, middle, last := tokens[0], tokens[1..n], tokens[n];
    JoinPrefix("(", first, middle);
    JoinAppend([first] + middle, last, ' ');
    JoinAppend(["(" + first] + middle, last + ")", ' ');
    assert tokens == [first] + middle + [last];
  }

  function BracketTexts(lists: seq<seq<string>>): string {
    if lists == [] then "" else " (" + Join(lists[0], ' ') + ")" + BracketTexts(lists[1..])
  }

  lemma Regroup(a: string, b: string, c: string)
    ensures a + (" (" + b + ")" + c) == a + " " + ("(" + b + ")") + c
  {
    assert " (" == " " + "(";
  }

  lemma {:induction false} BracketTextsAreTokens(done: seq<string>, lists: seq<seq<string>>)
    requires done != [] && forall i :: 0 <= i < |lists| ==> |lists[i]| >= 2
    ensures Join(done, ' ') + BracketTexts(lists) == Join(done + BracketAll(lists), ' ')
    decreases |lists|
  {
    hide Join, Bracketed;
    if lists == [] {
      assert done + BracketAll(lists) == done;
    } else {
      var rest, last := lists[1..], Bracketed(lists[0]);
      BracketedNotEmpty(lists[0]);
      BracketedJoin(lists[0]);
      JoinConcat(done, last, ' ');
      Regroup(Join(done, ' '), Join(lists[0], ' '), BracketTexts(rest));
      BracketTextsAreTokens(done + last, rest);
      assert done + BracketAll(lists) == done + last + BracketAll(rest);
    }
  }

  lemma BracketedNotEmpty(tokens: seq<string>)
    requires |tokens| >= 2
    ensures Bracketed(tokens) != []
  {}

  lemma {:induction false} SelectorsAreTexts(others: seq<Selector>)
    requires forall i :: 0 <= i < |others| ==> !others[i].root
    ensures DescribeSelectors(others) == BracketTexts(TokenLists(others))
  {
    if others != [] {
      SelectorIsTokens(others[0]);
      SelectorsAreTexts(others[1..]);
      assert TokenLists(others)[1..] == TokenLists(others[1..]);
    }
  }

  lemma {:induction false} UserIsTokens(cfg: Config, u: User)
    requires ValidUser(cfg, u)
    ensures DescribeUser(u) == Join(UserTokens(u), ' ')
  {
    hide Join, Spaced, SelectorTokens, FlagTokens, PasswordTokens, DescribeSelector, BracketAll, BracketTexts, TokenLists, ValidSelector, ValidFlags, ValidPasswords;
    var root, others := SelectorTokens(u.selectors[0]), u.selectors[1..];
    SelectorIsTokens(u.selectors[0]);
    SelectorsAreTexts(others);
    BracketTextsAreTokens(root, TokenLists(others));
    SpacedConcat(FlagTokens(u.flags), PasswordTokens(u.passwords));
    SpacedThenJoin(HeadTokens(u), root + BracketAll(TokenLists(others)));
    assert HeadTokens(u) + (root + BracketAll(TokenLists(others))) == UserTokens(u);
    assert DescribeSelectors(u.selectors) == DescribeSelector(u.selectors[0]) + DescribeSelectors(others);
  }
}
