/**
 The retained rules as the text they are kept in: dropping the superseded ones and appending one, on any text.

 While every rule name is free of spaces the text is that of the list of rules, and both operations are those of the
 list. A first-arg may hold a space, and then the pieces of the text are no longer the rules.
 */
module AclRuleText {
  import opened AclText
  import opened AclSelector
  import opened AclUser

  /**
   The pieces of a text as ACLSelectorRemoveCommandRule scans them: the first character is taken for the sign, and the
   piece ends in front of the next space. Behind a space that ends the text there is an empty piece.
   */
  function Pieces(s: string): seq<string>
    decreases |s|
  {
    if s == "" then []
    else
      var e := 1 + IndexOf(s[1..], ' ');
      if e == |s| then [s]
      else [s[..e]] + if e + 1 == |s| then [""] else Pieces(s[e + 1..])
  }

  predicate Matches(added: string, piece: string) {
    piece != "" && Supersedes(added, piece[1..])
  }

  function KeptPieces(pieces: seq<string>, added: string): seq<string> {
    if pieces == [] then []
    else (if Matches(added, pieces[0]) then [] else [pieces[0]]) + KeptPieces(pieces[1..], added)
  }

  /** The text without the pieces that `added` supersedes. */
  function TextWithout(s: string, added: string): string {
    Join(KeptPieces(Pieces(s), added), ' ')
  }

  /** ACLUpdateCommandRules, on the text. */
  function UpdateText(s: string, r: Rule): string {
    var kept := TextWithout(s, r.name);
    (if kept == "" then "" else kept + " ") + r.Text()
  }

  /** Only the last piece may be empty, and a space may only be where a sign is expected. */
  predicate PiecesOk(pieces: seq<string>) {
    forall i :: 0 <= i < |pieces| ==> if pieces[i] == "" then i == |pieces| - 1 else ' ' !in pieces[i][1..]
  }

  lemma {:induction false} JoinCons(first: string, rest: seq<string>)
    ensures Join([first] + rest, ' ') == first + if rest == [] then "" else " " + Join(rest, ' ')
  {
    assert ([first] + rest)[1..] == rest;
    assert first + [' '] + Join(rest, ' ') == first + (" " + Join(rest, ' '));
  }

  lemma {:induction false} PiecesAt(s: string, e: nat)
    requires 1 <= e <= |s| && ' ' !in s[1..e] && (e < |s| ==> s[e] == ' ')
    ensures Pieces(s) == if e == |s| then [s] else [s[..e]] + if e + 1 == |s| then [""] else Pieces(s[e + 1..])
  {
    assert forall j :: 0 <= j < e - 1 ==> s[1..][j] == s[1..e][j];
    IndexOfUnique(s[1..], ' ', e - 1);
  }

  lemma FirstSpace(s: string) returns (e: nat)
    requires s != ""
    ensures 1 <= e <= |s| && ' ' !in s[1..e] && (e < |s| ==> s[e] == ' ')
  {
    e := 1 + IndexOf(s[1..], ' ');
    assert forall j :: 0 <= j < e - 1 ==> s[1..][j] == s[1..e][j];
  }

  /** A text is its pieces, joined by single spaces. */
  lemma {:induction false} JoinOfPieces(s: string)
    ensures Join(Pieces(s), ' ') == s && PiecesOk(Pieces(s))
    decreases |s|
  {
    if s != "" {
      hide Join, Pieces, PiecesOk;
      var e := FirstSpace(s);
      PiecesAt(s, e);
      assert s[..e][1..] == s[1..e];
      if e == |s| {
        JoinCons(s, []);
        PiecesCons(s, []) by { NoPieces(); }
        assert [s] + [] == [s];
      } else {
        var rest := if e + 1 == |s| then [""] else Pieces(s[e + 1..]);
        NoPieces();
        if e + 1 < |s| {
          JoinOfPieces(s[e + 1..]);
        }
        JoinCons(s[..e], rest);
        PiecesCons(s[..e], rest);
        SpaceBetween(s, e);
      }
    } else {
      NoPieces();
    }
  }

  lemma SpaceBetween(s: string, e: nat)
    requires e < |s| && s[e] == ' '
    ensures s == s[..e] + (" " + s[e + 1..])
  {}

  lemma NoPieces()
    ensures Pieces("") == [] && PiecesOk([]) && PiecesOk([""]) && Join([], ' ') == "" && Join([""], ' ') == ""
  {}

  lemma PiecesCons(first: string, rest: seq<string>)
    requires first != "" && ' ' !in first[1..] && PiecesOk(rest)
    ensures PiecesOk([first] + rest)
  {}

  // ---- texts of rules without spaces ----

  /** No rule name has a space or a NUL. */
  predicate Clean(rules: seq<Rule>) {
    forall i :: 0 <= i < |rules| ==> ' ' !in rules[i].name && '\0' !in rules[i].name
  }

  lemma {:induction false} RulesTextFirst(rules: seq<Rule>)
    requires rules != []
    ensures RulesText(rules) == rules[0].Text() + if |rules| == 1 then "" else " " + RulesText(rules[1..])
  {
    assert RuleTexts(rules)[1..] == RuleTexts(rules[1..]);
    JoinCons(rules[0].Text(), RuleTexts(rules[1..]));
    assert RuleTexts(rules) == [rules[0].Text()] + RuleTexts(rules[1..]);
  }

  lemma SignAndName(r: Rule)
    ensures r.Text() != "" && r.Text()[1..] == r.name && (r.Text()[0] == '+' || r.Text()[0] == '-')
  {}

  lemma {:induction false} FirstPiece(first: string, rest: string)
    requires first != "" && ' ' !in first[1..]
    ensures Pieces(first) == [first]
    ensures rest != "" ==> Pieces(first + (" " + rest)) == [first] + Pieces(rest)
  {
    hide Pieces;
    PiecesAt(first, |first|);
    var s := first + (" " + rest);
    assert s[..|first|] == first && s[|first| + 1..] == rest && s[1..|first|] == first[1..];
    PiecesAt(s, |first|);
  }

  lemma TextOfRulesIsSome(rules: seq<Rule>)
    requires rules != []
    ensures RulesText(rules) != ""
  {
    RulesTextFirst(rules);
  }

  /** The pieces of the text of clean rules are these rules. */
  lemma {:induction false} PiecesOfRules(rules: seq<Rule>)
    requires Clean(rules)
    ensures Pieces(RulesText(rules)) == RuleTexts(rules)
  {
    hide Pieces, RulesText, RuleTexts;
    if rules == [] {
      NoRulesNoPieces();
    } else {
      PiecesOfRules(rules[1..]);
      CleanFirst(rules);
      RulesTextFirst(rules);
      assert rules == [rules[0]] + rules[1..];
      RuleTextsCons(rules[0], rules[1..]);
      PieceInFront(rules[0].Text(), rules[1..]);
    }
  }

  lemma NoRulesNoPieces()
    ensures Pieces(RulesText([])) == RuleTexts([])
  {}

  lemma CleanFirst(rules: seq<Rule>)
    requires Clean(rules) && rules != []
    ensures rules[0].Text() != "" && ' ' !in rules[0].Text()[1..]
  {
    SignAndName(rules[0]);
  }

  lemma PieceInFront(first: string, rest: seq<Rule>)
    requires first != "" && ' ' !in first[1..] && Pieces(RulesText(rest)) == RuleTexts(rest)
    ensures Pieces(first + if rest == [] then "" else " " + RulesText(rest)) == [first] + RuleTexts(rest)
  {
    hide Pieces, RulesText, RuleTexts;
    FirstPiece(first, RulesText(rest));
    if rest == [] {
      NoRuleTexts();
      assert first + "" == first && [first] + [] == [first];
    } else {
      TextOfRulesIsSome(rest);
    }
  }

  lemma NoRuleTexts()
    ensures RuleTexts([]) == []
  {}

  lemma KeptFirst(piece: string, pieces: seq<string>, added: string)
    ensures KeptPieces([piece] + pieces, added) ==
            (if Matches(added, piece) then [] else [piece]) + KeptPieces(pieces, added)
  {
    assert ([piece] + pieces)[1..] == pieces;
  }

  lemma RuleTextsCons(r: Rule, rules: seq<Rule>)
    ensures RuleTexts([r] + rules) == [r.Text()] + RuleTexts(rules)
  {}

  lemma {:induction false} KeptPiecesOfRules(rules: seq<Rule>, added: string)
    ensures KeptPieces(RuleTexts(rules), added) == RuleTexts(DropSuperseded(rules, added))
  {
    if rules != [] {
      hide Supersedes, KeptPieces, RuleTexts;
      var r, rest := rules[0], rules[1..];
      var kept := DropSuperseded(rest, added);
      SignAndName(r);
      KeptPiecesOfRules(rest, added);
      assert rules == [r] + rest;
      RuleTextsCons(r, rest);
      KeptFirst(r.Text(), RuleTexts(rest), added);
      RuleTextsCons(r, kept);
      assert [] + RuleTexts(kept) == RuleTexts(kept) && [] + kept == kept;
    }
  }

  lemma KeptIsClean(rules: seq<Rule>, added: string)
    requires Clean(rules)
    ensures Clean(DropSuperseded(rules, added))
  {}

  lemma RuleTextsAppend(rules: seq<Rule>, r: Rule)
    ensures RuleTexts(rules + [r]) == RuleTexts(rules) + [r.Text()]
  {}

  lemma AppendedText(kept: seq<Rule>, r: Rule)
    ensures RulesText(kept + [r]) == (if RulesText(kept) == "" then "" else RulesText(kept) + " ") + r.Text()
  {
    RuleTextsAppend(kept, r);
    JoinAppend(RuleTexts(kept), r.Text(), ' ');
    if kept != [] {
      TextOfRulesIsSome(kept);
    }
  }

  /** On clean rules, dropping and appending on the text is dropping and appending on the list. */
  lemma UpdateOfRules(rules: seq<Rule>, r: Rule)
    requires Clean(rules)
    ensures TextWithout(RulesText(rules), r.name) == RulesText(DropSuperseded(rules, r.name))
    ensures UpdateText(RulesText(rules), r) == RulesText(DropSuperseded(rules, r.name) + [r])
  {
    hide Pieces, KeptPieces, Join, DropSuperseded;
    PiecesOfRules(rules);
    KeptPiecesOfRules(rules, r.name);
    AppendedText(DropSuperseded(rules, r.name), r);
  }

  /** Words separated by single spaces, with none in front or behind. */
  predicate Tidy(s: string) {
    && (s != "" ==> s[0] != ' ' && s[|s| - 1] != ' ')
    && (forall i :: 0 <= i < |s| - 1 ==> s[i] != ' ' || s[i + 1] != ' ')
  }

  /** A word in front of a tidy text, with a space between. */
  lemma TidyBehindWord(word: string, rest: string)
    requires word != "" && ' ' !in word && rest != "" && Tidy(rest)
    ensures Tidy(word + " " + rest)
  {
    var s := word + " " + rest;
    assert forall i :: 0 <= i < |word| ==> s[i] == word[i] != ' ';
    assert forall i :: 0 <= i < |rest| ==> s[|word| + 1 + i] == rest[i];
    forall i | 0 <= i < |s| - 1 ensures s[i] != ' ' || s[i + 1] != ' ' {
      if i > |word| {
        assert s[i] == rest[i - |word| - 1] && s[i + 1] == rest[i - |word|];
      }
    }
  }

  lemma RuleIsWord(r: Rule)
    requires ' ' !in r.name && '\0' !in r.name
    ensures r.Text() != "" && ' ' !in r.Text() && '\0' !in r.Text()
  {}

  /** The text of the rules is separated by single spaces, with none in front or behind. */
  lemma {:induction false} RulesTextIsTidy(rules: seq<Rule>)
    requires Clean(rules)
    ensures Tidy(RulesText(rules)) && '\0' !in RulesText(rules)
    ensures rules != [] ==> RulesText(rules) != ""
  {
    if rules != [] {
      RulesTextFirst(rules);
      RulesTextIsTidy(rules[1..]);
      RuleIsWord(rules[0]);
      if |rules| > 1 {
        hide Tidy, RulesText;
        TidyBehindWord(rules[0].Text(), RulesText(rules[1..]));
        assert rules[0].Text() + (" " + RulesText(rules[1..])) == rules[0].Text() + " " + RulesText(rules[1..]);
      }
    }
  }

  // ---- no NUL comes in ----

  lemma {:induction false} JoinHasNoNul(pieces: seq<string>)
    requires forall i :: 0 <= i < |pieces| ==> '\0' !in pieces[i]
    ensures '\0' !in Join(pieces, ' ')
  {
    if pieces != [] {
      JoinHasNoNul(pieces[1..]);
    }
  }

  lemma {:induction false} PiecesHaveNoNul(s: string)
    requires '\0' !in s
    ensures forall i :: 0 <= i < |Pieces(s)| ==> '\0' !in Pieces(s)[i]
    decreases |s|
  {
    if s != "" {
      var e := 1 + IndexOf(s[1..], ' ');
      if e + 1 < |s| {
        PiecesHaveNoNul(s[e + 1..]);
      }
    }
  }

  lemma {:induction false} KeptAreAmong(pieces: seq<string>, added: string)
    ensures forall i :: 0 <= i < |KeptPieces(pieces, added)| ==> KeptPieces(pieces, added)[i] in pieces
  {
    if pieces != [] {
      KeptAreAmong(pieces[1..], added);
      assert pieces[0] in pieces && forall x :: x in pieces[1..] ==> x in pieces;
    }
  }

  lemma UpdateHasNoNul(s: string, r: Rule)
    requires '\0' !in s && '\0' !in r.name
    ensures '\0' !in TextWithout(s, r.name) && '\0' !in UpdateText(s, r)
  {
    hide Pieces, KeptPieces, Join;
    PiecesHaveNoNul(s);
    KeptAreAmong(Pieces(s), r.name);
    forall i | 0 <= i < |KeptPieces(Pieces(s), r.name)| ensures '\0' !in KeptPieces(Pieces(s), r.name)[i] {
      assert KeptPieces(Pieces(s), r.name)[i] in Pieces(s);
      var j :| 0 <= j < |Pieces(s)| && Pieces(s)[j] == KeptPieces(Pieces(s), r.name)[i];
    }
    JoinHasNoNul(KeptPieces(Pieces(s), r.name));
  }
}
