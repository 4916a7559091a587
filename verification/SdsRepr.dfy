/** sdscatrepr: writing any bytes as a word in double quotes, the way sdssplitargs reads it. */
module SdsRepr {
  import opened AclText
  import opened AclSplitArgs

  /** One char of C. */
  predicate IsByte(c: char) {
    c as int < 256
  }

  predicate AllBytes(s: string) {
    forall i :: 0 <= i < |s| ==> IsByte(s[i])
  }

  function HexDigit(d: nat): char
    requires d < 16
  {
    if d < 10 then ('0' as int + d) as char else ('a' as int + (d - 10)) as char
  }

  /** How a character is written; `printable` is isprint of the locale. */
  function ReprChar(printable: char -> bool, c: char): string
    requires IsByte(c)
  {
    if c == '\\' || c == '"' then ['\\', c]
    else if c == '\n' then "\\n"
    else if c == '\r' then "\\r"
    else if c == '\t' then "\\t"
    else if c == 7 as char then "\\a"
    else if c == 8 as char then "\\b"
    else if printable(c) then [c]
    else ['\\', 'x', HexDigit(c as int / 16), HexDigit(c as int % 16)]
  }

  function ReprChars(printable: char -> bool, s: string): string
    requires AllBytes(s)
  {
    if s == "" then "" else ReprChars(printable, s[..|s| - 1]) + ReprChar(printable, s[|s| - 1])
  }

  function Repr(printable: char -> bool, s: string): string
    requires AllBytes(s)
  {
    ['"'] + ReprChars(printable, s) + ['"']
  }

  /** sdscatrepr */
  method CatRepr(printable: char -> bool, s: string, p: string) returns (r: string)
    requires AllBytes(p)
    ensures r == s + Repr(printable, p)
  {
    hide ReprChar;
    r := s + "\"";
    var k := 0;
    while k < |p|
      invariant k <= |p| && AllBytes(p[..k]) && r == s + (['"'] + ReprChars(printable, p[..k]))
    {
      assert p[..k + 1][..k] == p[..k];
      r := CatChar(printable, r, p[k]);
      k := k + 1;
    }
    assert p[..|p|] == p;
    r := r + "\"";
  }

  /** The switch in its loop. */
  method CatChar(printable: char -> bool, s: string, c: char) returns (r: string)
    requires IsByte(c)
    ensures r == s + ReprChar(printable, c)
  {
    if c == '\\' || c == '"' {
      r := s + ['\\', c];
    } else if c == '\n' {
      r := s + "\\n";
    } else if c == '\r' {
      r := s + "\\r";
    } else if c == '\t' {
      r := s + "\\t";
    } else if c == 7 as char {
      r := s + "\\a";
    } else if c == 8 as char {
      r := s + "\\b";
    } else if printable(c) {
      r := s + [c];
    } else {
      r := s + ['\\', 'x', HexDigit(c as int / 16), HexDigit(c as int % 16)];
    }
  }

  lemma HexBack(d: nat)
    requires d < 16
    ensures IsHex(HexDigit(d)) && HexValue(HexDigit(d)) == d
  {}

  lemma ReadEscape(c: char, rest: string)
    requires c != '\0' && c != 'x'
    ensures DoubleTurn(['\\', c] + rest) == More([Escaped(c)], Double, 2) && (['\\', c] + rest)[2..] == rest
  {}

  lemma ReadHex(d: nat, e: nat, rest: string)
    requires d < 16 && e < 16
    ensures var s := ['\\', 'x', HexDigit(d), HexDigit(e)] + rest;
            DoubleTurn(s) == More([(d * 16 + e) as char], Double, 4) && s[4..] == rest
  {
    HexBack(d);
    HexBack(e);
  }

  lemma ReadPlain(c: char, rest: string)
    requires c != '\0' && c != '\\' && c != '"'
    ensures DoubleTurn([c] + rest) == More([c], Double, 1) && ([c] + rest)[1..] == rest
  {}

  /** One written character is read back in one turn. */
  lemma ReadBack(printable: char -> bool, c: char, rest: string)
    requires IsByte(c) && !printable('\0')
    ensures var s := ReprChar(printable, c);
            DoubleTurn(s + rest) == More([c], Double, |s|) && (s + rest)[|s|..] == rest
  {
    hide DoubleTurn;
    if c == '\\' || c == '"' {
      ReadEscape(c, rest);
    } else if c == '\n' {
      ReadEscape('n', rest);
    } else if c == '\r' {
      ReadEscape('r', rest);
    } else if c == '\t' {
      ReadEscape('t', rest);
    } else if c == 7 as char {
      ReadEscape('a', rest);
    } else if c == 8 as char {
      ReadEscape('b', rest);
    } else if printable(c) {
      ReadPlain(c, rest);
    } else {
      ReadHex(c as int / 16, c as int % 16, rest);
    }
  }

  lemma {:induction false} ReprHead(printable: char -> bool, s: string)
    requires AllBytes(s) && s != ""
    ensures ReprChars(printable, s) == ReprChar(printable, s[0]) + ReprChars(printable, s[1..])
  {
    hide ReprChar;
    var n := |s| - 1;
    if n > 0 {
      ReprHead(printable, s[..n]);
      assert s[..n][1..] == s[1..][..n - 1];
    }
  }

  /** Behind the opening quote the word is read up to the closing one. */
  lemma {:induction false} ReadQuoted(printable: char -> bool, s: string, tail: string, current: string)
    requires AllBytes(s) && !printable('\0') && (tail == "" || IsSpace(tail[0]))
    ensures Word(ReprChars(printable, s) + (['"'] + tail), Double, current) == Some((current + s, tail))
    decreases |s|
  {
    hide ReprChar, ReprChars, DoubleTurn;
    if s == "" {
      ReadClosing(printable, tail);
      assert current + s == current;
    } else {
      var rest := ReprChars(printable, s[1..]) + (['"'] + tail);
      ReprHead(printable, s);
      assert ReprChars(printable, s) + (['"'] + tail) == ReprChar(printable, s[0]) + rest;
      ReadBack(printable, s[0], rest);
      ReadQuoted(printable, s[1..], tail, current + [s[0]]);
      assert current + [s[0]] + s[1..] == current + s;
    }
  }

  lemma ReadClosing(printable: char -> bool, tail: string)
    requires tail == "" || IsSpace(tail[0])
    ensures ReprChars(printable, "") + (['"'] + tail) == ['"'] + tail
    ensures DoubleTurn(['"'] + tail) == Done(1) && (['"'] + tail)[1..] == tail
  {}

  function ReprAll(printable: char -> bool, words: seq<string>): (r: seq<string>)
    requires forall i :: 0 <= i < |words| ==> AllBytes(words[i])
    ensures |r| == |words|
    ensures forall i :: 0 <= i < |words| ==> r[i] == Repr(printable, words[i])
  {
    if words == [] then [] else [Repr(printable, words[0])] + ReprAll(printable, words[1..])
  }

  lemma WordsOfQuoted(printable: char -> bool, word: string, tail: string)
    requires AllBytes(word) && !printable('\0') && (tail == "" || IsSpace(tail[0]))
    ensures Words(Repr(printable, word) + tail) == match Words(tail) case None => None case Some(others) => Some([word] + others)
  {
    hide ReprChars, Word;
    var inner := ReprChars(printable, word) + (['"'] + tail);
    var line := Repr(printable, word) + tail;
    assert line == ['"'] + inner && line[1..] == inner;
    ReadQuoted(printable, word, tail, "");
    OpensQuote(line);
    assert "" + word == word;
  }

  lemma OpensQuote(line: string)
    requires line != "" && line[0] == '"'
    ensures SkipBlanks(line) == line && At(line, 0) != '\0' && Word(line, Bare, "") == Word(line[1..], Double, "")
  {
    assert "" + "" == "";
  }

  lemma WordsBehindSpace(rest: string)
    ensures Words([' '] + rest) == Words(rest)
  {
    hide Word;
    assert ([' '] + rest)[1..] == rest;
  }

  /**
   Words written with sdscatrepr and joined by spaces are read back as they were by sdssplitargs, whatever bytes they
   hold, and also when they are empty; the locale only must not print NUL.
   */
  lemma {:induction false} WrittenIsReadBack(printable: char -> bool, words: seq<string>)
    requires !printable('\0') && forall i :: 0 <= i < |words| ==> AllBytes(words[i])
    ensures SplitArgs(Join(ReprAll(printable, words), ' ')) == Some(words)
  {
    hide Words, Repr;
    if words == [] {
      NoWords();
    } else {
      var word, rest := words[0], words[1..];
      WrittenIsReadBack(printable, rest);
      assert words == [word] + rest;
      var written := ReprAll(printable, rest);
      if rest == [] {
        WordsOfQuoted(printable, word, "");
        NoWords();
        assert Repr(printable, word) + "" == Repr(printable, word);
        assert [word] + [] == words;
      } else {
        var tail := Join(written, ' ');
        WordsOfQuoted(printable, word, [' '] + tail);
        WordsBehindSpace(tail);
        assert ReprAll(printable, words) == [Repr(printable, word)] + written;
        assert Join(ReprAll(printable, words), ' ') == Repr(printable, word) + ([' '] + tail);
      }
    }
  }

  /** Both cases of the hexadecimal digits are read, and nothing else. */
  lemma HexDigitsAre(c: char)
    ensures IsHex(c) <==> c in "0123456789abcdef" + "ABCDEF"
    ensures forall d: nat :: d < 16 && (c == "0123456789abcdef"[d] || c == "0123456789ABCDEF"[d]) ==> HexValue(c) == d
  {
    var lower, upper := "0123456789abcdef", "ABCDEF";
    assert lower == ['0', '1', '2', '3', '4', '5', '6', '7', '8', '9', 'a', 'b', 'c', 'd', 'e', 'f'];
    assert upper == ['A', 'B', 'C', 'D', 'E', 'F'];
  }

  // ---- what is refused ----

  /** Behind what was written with an opening quote, the word is read on in the quotes. */
  lemma {:induction false} ReadInQuotes(printable: char -> bool, s: string, rest: string, current: string)
    requires AllBytes(s) && !printable('\0')
    ensures Word(ReprChars(printable, s) + rest, Double, current) == Word(rest, Double, current + s)
    decreases |s|
  {
    hide ReprChar, DoubleTurn;
    if s == "" {
      assert ReprChars(printable, s) + rest == rest && current + s == current;
    } else {
      var more := ReprChars(printable, s[1..]) + rest;
      ReprHead(printable, s);
      assert ReprChars(printable, s) + rest == ReprChar(printable, s[0]) + more;
      ReadBack(printable, s[0], more);
      ReadInQuotes(printable, s[1..], rest, current + [s[0]]);
      assert current + [s[0]] + s[1..] == current + s;
    }
  }

  /** A word that is not closed, or closed in front of something other than white space, makes the line unbalanced. */
  lemma UnbalancedIsRefused(printable: char -> bool, s: string, tail: string)
    requires AllBytes(s) && !printable('\0') && tail != "" && tail[0] != '\0' && !IsSpace(tail[0])
    ensures SplitArgs(['"'] + ReprChars(printable, s)) == None
    ensures SplitArgs(Repr(printable, s) + tail) == None
  {
    hide ReprChars, Word, Words;
    var open, chars := ['"'] + ReprChars(printable, s), ReprChars(printable, s);
    assert open[1..] == chars && chars + "" == chars && "" + s == s;
    ReadInQuotes(printable, s, "", "");
    NeverClosed(s);
    OpensQuote(open);
    NoWord(open);
    var line := Repr(printable, s) + tail;
    assert line[1..] == chars + (['"'] + tail);
    ReadInQuotes(printable, s, ['"'] + tail, "");
    ClosedTooSoon(tail, s);
    OpensQuote(line);
    NoWord(line);
  }

  lemma NeverClosed(current: string)
    ensures Word("", Double, current) == None
  {}

  lemma ClosedTooSoon(tail: string, current: string)
    requires tail != "" && tail[0] != '\0' && !IsSpace(tail[0])
    ensures Word(['"'] + tail, Double, current) == None
  {
    assert (['"'] + tail)[1] == tail[0];
  }

  lemma NoWord(line: string)
    requires SkipBlanks(line) == line && At(line, 0) != '\0' && Word(line, Bare, "") == None
    ensures Words(line) == None
  {}

  // ---- single quotes ----

  /** In single quotes every character stands for itself; only a backslash in front of a quote is dropped. */
  function Quoted(s: string): string {
    if s == "" then "" else (if s[0] == '\'' then "\\'" else [s[0]]) + Quoted(s[1..])
  }

  lemma SingleOne(c: char, rest: string)
    requires c != '\0' && c != '\'' && (c == '\\' ==> rest != "" && rest[0] != '\'')
    ensures SingleTurn([c] + rest) == More([c], Single, 1) && ([c] + rest)[1..] == rest
  {}

  lemma SingleEscaped(rest: string)
    ensures SingleTurn("\\'" + rest) == More("'", Single, 2) && ("\\'" + rest)[2..] == rest
  {}

  lemma SingleClosed(tail: string)
    requires tail == "" || IsSpace(tail[0])
    ensures SingleTurn("'" + tail) == Done(1) && ("'" + tail)[1..] == tail
  {}

  lemma QuotedStart(s: string, tail: string)
    requires s != ""
    ensures var q := Quoted(s) + tail; q != "" && q[0] == if s[0] == '\'' then '\\' else s[0]
  {}

  /** Such a word is read back if it holds no NUL and does not end with a backslash. */
  lemma {:induction false} ReadSingle(s: string, tail: string, current: string)
    requires '\0' !in s && (tail == "" || IsSpace(tail[0])) && (s != "" ==> s[|s| - 1] != '\\')
    ensures Word(Quoted(s) + ("'" + tail), Single, current) == Some((current + s, tail))
    decreases |s|
  {
    hide SingleTurn, IsSpace;
    if s == "" {
      assert Quoted(s) + ("'" + tail) == "'" + tail && current + s == current;
      SingleClosed(tail);
    } else {
      var rest := Quoted(s[1..]) + ("'" + tail);
      if s[0] == '\'' {
        assert Quoted(s) + ("'" + tail) == "\\'" + rest;
        SingleEscaped(rest);
      } else {
        assert Quoted(s) + ("'" + tail) == [s[0]] + rest;
        if s[0] == '\\' {
          QuotedStart(s[1..], "'" + tail);
        }
        SingleOne(s[0], rest);
      }
      ReadSingle(s[1..], tail, current + [s[0]]);
      assert current + [s[0]] + s[1..] == current + s;
    }
  }

  lemma SingleQuotedIsReadBack(s: string)
    requires '\0' !in s && (s != "" ==> s[|s| - 1] != '\\')
    ensures SplitArgs("'" + Quoted(s) + "'") == Some([s])
  {
    hide Word, Words, Quoted;
    var line := "'" + Quoted(s) + "'";
    assert line[1..] == Quoted(s) + ("'" + "") && "" + s == s;
    ReadSingle(s, "", "");
    OpensSingle(line);
    OneWord(line, s);
  }

  lemma OpensSingle(line: string)
    requires line != "" && line[0] == '\''
    ensures SkipBlanks(line) == line && At(line, 0) != '\0' && Word(line, Bare, "") == Word(line[1..], Single, "")
  {
    assert "" + "" == "";
  }

  lemma OneWord(line: string, word: string)
    requires SkipBlanks(line) == line && At(line, 0) != '\0' && Word(line, Bare, "") == Some((word, ""))
    ensures Words(line) == Some([word])
  {
    hide Word;
    NoWords();
    assert [word] + [] == [word];
  }
}
