/**
 sdssplitargs: splitting a line into words, with quotes.

 A line is a C string: reading stops at a NUL, and behind the last character there is one. Outside of quotes a word
 ends at a space, a tab, a newline or a carriage return; in front of a word every isspace character is skipped.
 */
module AclSplitArgs {
  import opened AclText

  /** The character `k` places ahead. */
  function At(s: string, k: nat): char {
    if k < |s| then s[k] else '\0'
  }

  predicate EndsWord(c: char) {
    c == ' ' || c == '\n' || c == '\r' || c == '\t'
  }

  /** is_hex_digit */
  predicate IsHex(c: char) {
    '0' <= c <= '9' || 'a' <= c <= 'f' || 'A' <= c <= 'F'
  }

  /** hex_digit_to_int */
  function HexValue(c: char): (v: nat)
    ensures v < 16
  {
    if '0' <= c <= '9' then c as int - '0' as int
    else if 'a' <= c <= 'f' then c as int - 'a' as int + 10
    else if 'A' <= c <= 'F' then c as int - 'A' as int + 10
    else 0
  }

  /** What a backslash and a character stand for in double quotes. */
  function Escaped(c: char): char {
    if c == 'n' then '\n' else if c == 'r' then '\r' else if c == 't' then '\t'
    else if c == 'b' then 8 as char else if c == 'a' then 7 as char else c
  }

  datatype Mode = Bare | Double | Single

  /** One turn of the inner loop: some text and `used` characters read, the end of the word, or an error. */
  datatype Turn = More(text: string, mode: Mode, used: nat) | Done(used: nat) | Bad

  function BareTurn(s: string): Turn {
    var c := At(s, 0);
    if EndsWord(c) then Done(1)
    else if c == '\0' then Done(0)
    else if c == '"' then More("", Double, 1)
    else if c == '\'' then More("", Single, 1)
    else More([c], Bare, 1)
  }

  /** A closing quote must be followed by white space, or by nothing. */
  function Close(s: string): Turn {
    if At(s, 1) != '\0' && !IsSpace(At(s, 1)) then Bad else Done(1)
  }

  function DoubleTurn(s: string): Turn {
    var c := At(s, 0);
    if c == '\\' && At(s, 1) == 'x' && IsHex(At(s, 2)) && IsHex(At(s, 3)) then
      More([(HexValue(At(s, 2)) * 16 + HexValue(At(s, 3))) as char], Double, 4)
    else if c == '\\' && At(s, 1) != '\0' then More([Escaped(At(s, 1))], Double, 2)
    else if c == '"' then Close(s)
    else if c == '\0' then Bad
    else More([c], Double, 1)
  }

  function SingleTurn(s: string): Turn {
    var c := At(s, 0);
    if c == '\\' && At(s, 1) == '\'' then More("'", Single, 2)
    else if c == '\'' then Close(s)
    else if c == '\0' then Bad
    else More([c], Single, 1)
  }

  function TurnAt(s: string, mode: Mode): (t: Turn)
    ensures t.More? ==> 0 < t.used <= |s|
    ensures t.Done? ==> t.used <= |s|
  {
    match mode case Bare => BareTurn(s) case Double => DoubleTurn(s) case Single => SingleTurn(s)
  }

  /** The rest of a word of which `current` was read, and what follows it. None: unbalanced quotes. */
  function Word(s: string, mode: Mode, current: string): Option<(string, string)>
    decreases |s|
  {
    match TurnAt(s, mode)
    case Bad => None
    case Done(used) => Some((current, s[used..]))
    case More(text, next, used) => Word(s[used..], next, current + text)
  }

  function SkipBlanks(s: string): (r: string)
    ensures |r| <= |s| && (r == "" || !IsSpace(r[0]))
  {
    if s != "" && IsSpace(s[0]) then SkipBlanks(s[1..]) else s
  }

  lemma {:induction false} WordShrinks(s: string, mode: Mode, current: string)
    ensures Word(s, mode, current).Some? ==> |Word(s, mode, current).value.1| <= |s|
    ensures mode == Bare && At(s, 0) != '\0' && !EndsWord(At(s, 0)) && Word(s, mode, current).Some? ==>
              |Word(s, mode, current).value.1| < |s|
    decreases |s|
  {
    var t := TurnAt(s, mode);
    if t.More? {
      WordShrinks(s[t.used..], t.mode, current + t.text);
    }
  }

  function Words(s: string): Option<seq<string>>
    decreases |s|
  {
    var line := SkipBlanks(s);
    if At(line, 0) == '\0' then Some([])
    else
      match Word(line, Bare, "")
      case None => None
      case Some((word, rest)) =>
        WordShrinks(line, Bare, "");
        match Words(rest) case None => None case Some(others) => Some([word] + others)
  }

  /** The words of a line, or None when its quotes are unbalanced. */
  function SplitArgs(line: string): Option<seq<string>> {
    Words(line)
  }

  // ---- the loops ----

  /** What the words read so far and those to come make up. */
  function Then(vector: seq<string>, rest: Option<seq<string>>): Option<seq<string>> {
    match rest case None => None case Some(words) => Some(vector + words)
  }

  lemma ThenMore(vector: seq<string>, word: string, rest: Option<seq<string>>)
    ensures Then(vector, match rest case None => None case Some(words) => Some([word] + words)) == Then(vector + [word], rest)
  {
    if rest.Some? {
      assert vector + ([word] + rest.value) == vector + [word] + rest.value;
    }
  }

  /** The inner loop of sdssplitargs: one word from position `start`. */
  method ReadWord(line: string, start: nat) returns (word: Option<string>, p: nat)
    requires start <= |line|
    ensures p <= |line|
    ensures Word(line[start..], Bare, "") == match word case None => None case Some(w) => Some((w, line[p..]))
  {
    var current, mode := "", Bare;
    p := start;
    while true
      invariant start <= p <= |line|
      invariant Word(line[start..], Bare, "") == Word(line[p..], mode, current)
      decreases |line| - p
    {
      var turn := TurnAt(line[p..], mode);
      match turn {
        case Bad =>
          return None, p;
        case Done(used) =>
          assert line[p..][used..] == line[p + used..];
          p := p + used;
          return Some(current), p;
        case More(text, next, used) =>
          assert line[p..][used..] == line[p + used..];
          current, mode, p := current + text, next, p + used;
      }
    }
  }

  /** sdssplitargs; None for its NULL. */
  method SplitLine(line: string) returns (argv: Option<seq<string>>)
    ensures argv == SplitArgs(line)
  {
    var p, vector := 0, [];
    assert line[0..] == line;
    NothingYet(Words(line));
    while true
      invariant p <= |line| && SplitArgs(line) == Then(vector, Words(line[p..]))
      decreases |line| - p
    {
      ghost var from := p;
      while p < |line| && line[p] != '\0' && IsSpace(line[p])
        invariant from <= p <= |line| && SkipBlanks(line[p..]) == SkipBlanks(line[from..])
      {
        assert line[p..][1..] == line[p + 1..];
        p := p + 1;
      }
      assert SkipBlanks(line[from..]) == line[p..];
      if p == |line| || line[p] == '\0' {
        assert Words(line[from..]) == Some([]);
        assert vector + [] == vector;
        return Some(vector);
      }
      WordShrinks(line[p..], Bare, "");
      var word, next := ReadWord(line, p);
      if word.None? {
        return None;
      }
      ThenMore(vector, word.value, Words(line[next..]));
      p, vector := next, vector + [word.value];
    }
  }

  lemma NothingYet(rest: Option<seq<string>>)
    ensures Then([], rest) == rest
  {
    if rest.Some? {
      assert [] + rest.value == rest.value;
    }
  }

  // ---- which words survive being joined and split again ----

  /** The characters that end a word or open a quote. */
  predicate Special(c: char) {
    EndsWord(c) || c == '\0' || c == '"' || c == '\''
  }

  predicate NoSpecial(s: string) {
    forall i :: 0 <= i < |s| ==> !Special(s[i])
  }

  /** A word that is read back as it is. */
  predicate Plain(word: string) {
    word != "" && !IsSpace(word[0]) && NoSpecial(word)
  }

  predicate AllPlain(words: seq<string>) {
    forall i :: 0 <= i < |words| ==> Plain(words[i])
  }

  lemma BareChar(c: char, rest: string)
    requires !Special(c)
    ensures TurnAt([c] + rest, Bare) == More([c], Bare, 1) && ([c] + rest)[1..] == rest
  {}

  lemma {:induction false} BareWord(word: string, rest: string, current: string)
    requires NoSpecial(word)
    ensures Word(word + rest, Bare, current) == Word(rest, Bare, current + word)
    decreases |word|
  {
    if word == "" {
      assert word + rest == rest && current + word == current;
    } else {
      assert word + rest == [word[0]] + (word[1..] + rest);
      BareChar(word[0], word[1..] + rest);
      BareWord(word[1..], rest, current + [word[0]]);
      assert current + [word[0]] + word[1..] == current + word;
    }
  }

  lemma WordAtEnd(current: string)
    ensures Word("", Bare, current) == Some((current, ""))
  {}

  lemma WordAtSpace(rest: string, current: string)
    ensures Word([' '] + rest, Bare, current) == Some((current, rest))
  {
    assert ([' '] + rest)[1..] == rest;
  }

  lemma WordsFromWord(word: string, tail: string, rest: string)
    requires Plain(word) && Word(word + tail, Bare, "") == Some((word, rest))
    ensures Words(word + tail) == match Words(rest) case None => None case Some(others) => Some([word] + others)
  {
    hide Word;
    assert (word + tail)[0] == word[0];
    assert !Special(word[0]);
  }

  /** Plain words, joined by single spaces, are split again as they were. */
  lemma {:induction false} PlainWordsSurvive(words: seq<string>)
    requires AllPlain(words)
    ensures SplitArgs(Join(words, ' ')) == Some(words)
  {
    if words != [] {
      hide Word, Words, Plain;
      var word, rest := words[0], words[1..];
      assert "" + word == word;
      assert Plain(word) && AllPlain(rest);
      PlainWordsSurvive(rest);
      assert NoSpecial(word) by { PlainHasNoSpecial(word); }
      if rest == [] {
        BareWord(word, "", "");
        WordAtEnd(word);
        assert word + "" == word;
        WordsFromWord(word, "", "");
        NoWords();
        assert words == [word] + [];
      } else {
        var tail := Join(rest, ' ');
        assert Join(words, ' ') == word + ([' '] + tail);
        BareWord(word, [' '] + tail, "");
        WordAtSpace(tail, word);
        WordsFromWord(word, [' '] + tail, tail);
        assert words == [word] + rest;
      }
    } else {
      NoWords();
    }
  }

  lemma PlainHasNoSpecial(word: string)
    requires Plain(word)
    ensures NoSpecial(word)
  {}

  lemma NoWords()
    ensures Words("") == Some([])
  {}

  /**
   What reading the rest of a word costs. Outside of quotes, either the characters are copied, and the one that ends
   the word is read too unless it is the NUL; or at least two more than were copied are read.
   */
  predicate Costs(s: string, mode: Mode, current: string, word: string, rest: string) {
    && |current| <= |word| && current == word[..|current|] && |rest| <= |s|
    && var read, copied := |s| - |rest|, |word| - |current|;
       if mode != Bare then read >= copied + 1
       else
         || read >= copied + 2
         || (Copied(s, current, word)
             && ((read == copied + 1 && EndsWord(At(s, copied))) || (read == copied && At(rest, 0) == '\0')))
  }

  /** The word goes on with the characters that are there, none of them special. */
  predicate Copied(s: string, current: string, word: string)
    requires |current| <= |word|
  {
    && |word| - |current| <= |s| && word[|current|..] == s[..|word| - |current|]
    && NoSpecial(word[|current|..])
  }

  lemma CostOfTurn(s: string, mode: Mode, current: string, word: string, rest: string)
    requires TurnAt(s, mode).More?
    requires var t := TurnAt(s, mode); Costs(s[t.used..], t.mode, current + t.text, word, rest)
    ensures Costs(s, mode, current, word, rest)
  {
    hide Copied;
    var t := TurnAt(s, mode);
    assert word[..|current|] == word[..|current + t.text|][..|current|];
    if t.mode == Bare && Copied(s[t.used..], current + t.text, word) {
      CopiedMore(s, current, word, t.text[0]);
    }
  }

  lemma CopiedMore(s: string, current: string, word: string, c: char)
    requires s != "" && s[0] == c && !Special(c)
    requires |current| < |word| && word[..|current| + 1] == current + [c] && Copied(s[1..], current + [c], word)
    ensures Copied(s, current, word)
  {
    var n := |word| - |current|;
    assert word[|current|] == word[..|current| + 1][|current|] == c;
    assert word[|current|..] == [c] + word[|current| + 1..];
    assert s[..n] == [c] + s[1..][..n - 1];
  }

  lemma {:induction false} WordCosts(s: string, mode: Mode, current: string)
    requires Word(s, mode, current).Some?
    ensures var (word, rest) := Word(s, mode, current).value; Costs(s, mode, current, word, rest)
    decreases |s|
  {
    hide Costs;
    var t := TurnAt(s, mode);
    var (word, rest) := Word(s, mode, current).value;
    if t.More? {
      WordCosts(s[t.used..], t.mode, current + t.text);
      CostOfTurn(s, mode, current, word, rest);
    } else {
      CostOfEnd(s, mode, current);
    }
  }

  lemma CostOfEnd(s: string, mode: Mode, current: string)
    requires TurnAt(s, mode).Done?
    ensures Costs(s, mode, current, current, s[TurnAt(s, mode).used..])
  {
    assert current[..|current|] == current;
  }

  function Total(words: seq<string>): nat {
    if words == [] then 0 else |words[0]| + Total(words[1..])
  }

  lemma {:induction false} JoinedLength(words: seq<string>)
    requires words != []
    ensures |Join(words, ' ')| == Total(words) + |words| - 1
  {
    if |words| > 1 {
      JoinedLength(words[1..]);
    }
  }

  /** A line is at least as long as its words joined by single spaces, and only plain words can make it as short. */
  lemma {:induction false} WordsCost(s: string)
    requires Words(s).Some? && Words(s).value != []
    ensures var words := Words(s).value;
            && |s| >= Total(words) + |words| - 1
            && (|s| == Total(words) + |words| - 1 ==> AllPlain(words))
    decreases |s|
  {
    hide Word, Plain;
    var line := SkipBlanks(s);
    var (word, rest) := Word(line, Bare, "").value;
    var words, others := Words(s).value, Words(rest).value;
    WordShrinks(line, Bare, "");
    WordCosts(line, Bare, "");
    assert words == [word] + others && words[1..] == others;
    if others != [] {
      WordsCost(rest);
    } else {
      assert Total(others) == 0;
    }
    if |s| == Total(words) + |words| - 1 {
      FirstIsPlain(line, word, rest, others != []);
      assert forall i :: 0 < i < |words| ==> words[i] == others[i - 1];
    }
  }

  lemma OnlyNulEndsLine(rest: string)
    ensures At(rest, 0) == '\0' ==> Words(rest) == Some([])
  {
    assert rest != "" && rest[0] == '\0' ==> SkipBlanks(rest) == rest;
  }

  lemma FirstIsPlain(line: string, word: string, rest: string, goesOn: bool)
    requires Costs(line, Bare, "", word, rest) && At(line, 0) != '\0' && !IsSpace(At(line, 0)) && |rest| < |line|
    requires goesOn <==> Words(rest) != Some([])
    requires |line| - |rest| <= |word| + if goesOn then 1 else 0
    ensures Plain(word)
  {
    hide Words, Word;
    assert word[|""|..] == word;
    OnlyNulEndsLine(rest);
    assert Copied(line, "", word);
    assert word != "" && word[0] == line[0];
  }

  /** Words joined by single spaces are split again as they were exactly if each of them is plain. */
  lemma SplitBackIff(words: seq<string>)
    ensures SplitArgs(Join(words, ' ')) == Some(words) <==> AllPlain(words)
  {
    hide Words, Plain;
    if AllPlain(words) {
      PlainWordsSurvive(words);
    } else if SplitArgs(Join(words, ' ')) == Some(words) {
      JoinedLength(words);
      WordsCost(Join(words, ' '));
    }
  }
}
