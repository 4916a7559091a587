/**
 The retained rules as they are kept: one NUL-terminated character buffer, edited in place.

 `Holds(b, s)` says that the buffer `b` holds the C string `s`.
 */
module AclRuleBuffer {
  import opened AclText
  import opened AclSelector
  import opened AclRuleText

  ghost predicate Holds(b: seq<char>, s: string) {
    |s| < |b| && b[..|s|] == s && b[|s|] == '\0' && '\0' !in s
  }

  lemma HeldChar(b: seq<char>, s: string, i: nat)
    requires Holds(b, s) && i <= |s|
    ensures i < |b| && (i < |s| ==> b[i] == s[i] && b[i] != '\0') && (i == |s| ==> b[i] == '\0')
  {
    assert i < |s| ==> b[..|s|][i] == b[i];
  }

  /** memmove of the tail of the string, its NUL included, from `src` down to `dst`. */
  method MoveTail(buf: array<char>, dst: nat, src: nat, ghost s: string)
    requires Holds(buf[..], s) && dst <= src <= |s|
    modifies buf
    ensures Holds(buf[..], s[..dst] + s[src..])
  {
    var i := 0;
    ghost var was := buf[..];
    HeldChar(was, s, src);
    while buf[src + i] != '\0'
      invariant src + i <= |s| < buf.Length
      invariant forall j :: 0 <= j < dst ==> buf[j] == was[j]
      invariant forall j :: dst <= j < dst + i ==> buf[j] == was[src - dst + j]
      invariant forall j :: dst + i <= j < buf.Length ==> buf[j] == was[j]
      decreases |s| - i
    {
      HeldChar(was, s, src + i);
      buf[dst + i] := buf[src + i];
      i := i + 1;
    }
    HeldChar(was, s, src + i);
    buf[dst + i] := buf[src + i];
    Moved(was, buf[..], s, dst, src);
  }

  lemma Moved(was: seq<char>, now: seq<char>, s: string, dst: nat, src: nat)
    requires Holds(was, s) && dst <= src <= |s| && |now| == |was|
    requires forall j :: 0 <= j < dst ==> now[j] == was[j]
    requires forall j :: dst <= j <= dst + (|s| - src) ==> now[j] == was[src - dst + j]
    ensures Holds(now, s[..dst] + s[src..])
  {
    hide Holds;
    var t := s[..dst] + s[src..];
    HeldChar(was, s, |s|);
    forall j | 0 <= j < |t| ensures now[j] == t[j] && t[j] != '\0' {
      HeldChar(was, s, if j < dst then j else src + (j - dst));
    }
    IsHeld(now, t);
  }

  lemma IsHeld(b: seq<char>, s: string)
    requires |s| < |b| && b[|s|] == '\0' && forall j :: 0 <= j < |s| ==> b[j] == s[j] && s[j] != '\0'
    ensures Holds(b, s)
  {
    assert b[..|s|] == s;
  }

  /** strchr(buf + p, ' '), or the position of the NUL. */
  method FindSpace(buf: array<char>, p: nat, ghost s: string) returns (e: nat)
    requires Holds(buf[..], s) && p <= |s|
    ensures p <= e <= |s| && ' ' !in s[p..e] && (e < |s| ==> s[e] == ' ')
  {
    e := p;
    HeldChar(buf[..], s, e);
    while buf[e] != ' ' && buf[e] != '\0'
      invariant p <= e <= |s| < buf.Length && ' ' !in s[p..e]
      decreases |s| - e
    {
      HeldChar(buf[..], s, e);
      assert s[p..e + 1] == s[p..e] + [s[e]];
      e := e + 1;
    }
    HeldChar(buf[..], s, e);
  }

  /** memcmp(buf + p, name, n) == 0 */
  method SameChars(buf: array<char>, p: nat, name: string, n: nat) returns (same: bool)
    requires n <= |name| && p + n <= buf.Length
    ensures same <==> buf[p..p + n] == name[..n]
  {
    var i := 0;
    while i < n
      invariant i <= n && buf[p..p + i] == name[..i]
    {
      if buf[p + i] != name[i] {
        assert buf[p..p + n][i] != name[..n][i];
        return false;
      }
      assert buf[p..p + i + 1] == buf[p..p + i] + [buf[p + i]];
      i := i + 1;
    }
    return true;
  }

  /** The text in front of the piece that follows `done`. */
  function Before(done: seq<string>): string {
    if done == [] then "" else Join(done, ' ') + " "
  }

  lemma {:induction false} JoinSplit(done: seq<string>, rest: seq<string>)
    ensures rest != [] ==> Join(done + rest, ' ') == Before(done) + Join(rest, ' ')
    ensures rest == [] ==> Join(done + rest, ' ') == Join(done, ' ')
  {
    if rest == [] {
      assert done + rest == done;
    } else if done != [] {
      JoinConcat(done, rest, ' ');
    } else {
      assert done + rest == rest;
    }
  }

  /** Where the scan stands: `p` is at the first of the `rest` pieces, or at the end of the text. */
  ghost predicate ScanAt(s: string, done: seq<string>, rest: seq<string>, p: nat) {
    && s == Join(done + rest, ' ')
    && p == if rest == [] then |Join(done, ' ')| else |Before(done)|
  }

  lemma SpaceInFront(rest: string)
    ensures (" " + rest)[0] == ' ' && (" " + rest)[1..] == rest && |" " + rest| == 1 + |rest|
  {}

  /** A text with a piece in the middle. */
  lemma Parts(before: string, piece: string, tail: string)
    ensures var s := before + (piece + tail); var p, e := |before|, |before| + |piece|;
            |s| == e + |tail| && s[..p] == before && s[p..e] == piece && s[e..] == tail
  {
    var s, p := before + (piece + tail), |before|;
    assert s[p..] == piece + tail;
    assert s[p..p + |piece|] == s[p..][..|piece|] == piece;
  }

  lemma DropMore(s: string, e: nat, tail: string)
    requires e < |s| && s[e..] == tail
    ensures |tail| > 0 && s[e] == tail[0] && s[e + 1..] == tail[1..]
  {}

  lemma SliceMore(s: string, p: nat, e: nat)
    requires p < e <= |s|
    ensures s[p..e][1..] == s[p + 1..e]
  {}

  /** The text around the piece the scan stands at. */
  lemma ScanText(s: string, done: seq<string>, rest: seq<string>, p: nat)
    requires ScanAt(s, done, rest, p)
    ensures p <= |s|
    ensures rest == [] ==> p == |s|
    ensures rest != [] ==>
              var e := p + |rest[0]|;
              && e <= |s| && s[..p] == Before(done) && s[p..e] == rest[0]
              && (if |rest| == 1 then e == |s| else e < |s| && s[e] == ' ' && s[e + 1..] == Join(rest[1..], ' '))
  {
    hide Join, Before;
    JoinSplit(done, rest);
    if rest != [] {
      var tail := if |rest| == 1 then "" else " " + Join(rest[1..], ' ');
      assert rest == [rest[0]] + rest[1..];
      JoinCons(rest[0], rest[1..]);
      Parts(Before(done), rest[0], tail);
      if |rest| > 1 {
        SpaceInFront(Join(rest[1..], ' '));
        DropMore(s, p + |rest[0]|, tail);
      }
    }
  }

  lemma BeforeMore(done: seq<string>, piece: string)
    ensures |Join(done + [piece], ' ')| == |Before(done)| + |piece|
    ensures |Before(done + [piece])| == |Before(done)| + |piece| + 1
  {
    hide Join;
    JoinSplit(done, [piece]);
    assert [piece] + [] == [piece];
    JoinCons(piece, []);
  }

  lemma StepOver(s: string, done: seq<string>, rest: seq<string>, p: nat)
    requires ScanAt(s, done, rest, p) && rest != []
    ensures ScanAt(s, done + [rest[0]], rest[1..], p + |rest[0]| + if |rest| == 1 then 0 else 1)
  {
    hide Join, Before;
    assert done + rest == done + [rest[0]] + rest[1..];
    BeforeMore(done, rest[0]);
  }

  lemma BeforeIs(done: seq<string>)
    ensures Before(done) == if done == [] then "" else Join(done, ' ') + " "
    ensures done == [] ==> Join(done, ' ') == ""
  {}

  /** The text without the piece the scan stands at: what is moved, and to where. */
  lemma CutOut(s: string, done: seq<string>, rest: seq<string>, p: nat, dst: nat, src: nat)
    requires ScanAt(s, done, rest, p) && rest != []
    requires dst == if |rest| == 1 && p != 0 then p - 1 else p
    requires src == p + |rest[0]| + if |rest| == 1 then 0 else 1
    ensures dst <= src <= |s| && ScanAt(s[..dst] + s[src..], done, rest[1..], dst)
  {
    hide Join, Before;
    ScanText(s, done, rest, p);
    JoinSplit(done, rest[1..]);
    BeforeIs(done);
    if |rest| == 1 {
      assert s[src..] == "" && s[..dst] + "" == s[..dst];
      if done != [] {
        assert s[..p][..p - 1] == s[..p - 1];
        assert (Join(done, ' ') + " ")[..p - 1] == Join(done, ' ');
      }
    }
  }

  lemma EndOfRule(s: string, name: string, p: nat, e: nat)
    requires p <= e <= |s| && ' ' !in name && ' ' !in s[p..e] && (e < |s| ==> s[e] == ' ')
    requires p + |name| <= |s| && s[p..p + |name|] == name && (p + |name| < |s| ==> s[p + |name|] == ' ')
    ensures e == p + |name|
  {
    assert forall i :: p <= i < p + |name| ==> s[i] == name[i - p];
    assert forall i :: p <= i < e ==> s[p..e][i - p] == s[i];
  }

  lemma SupersedesByPrefix(b: seq<char>, s: string, p: nat, name: string, newRule: string, same: bool)
    requires Holds(b, s) && p + |name| <= |s| && s[p..p + |name|] == name
    requires same <==> var n := if |name| < |newRule| then |name| else |newRule|; b[p..p + n] == newRule[..n]
    ensures Supersedes(newRule, name) <==>
              same && (|name| == |newRule| || (|name| > |newRule| && b[p + |newRule|] == '|'))
  {
    assert b[p..p + |name|] == name by {
      forall i | 0 <= i < |name| ensures b[p + i] == name[i] {
        HeldChar(b, s, p + i);
        assert s[p..p + |name|][i] == s[p + i];
      }
    }
    if |name| >= |newRule| {
      assert b[p..p + |newRule|] == name[..|newRule|];
    }
  }

  /** The end of the rule at `p`, and whether `newRule` supersedes it. */
  method MatchRule(buf: array<char>, p: nat, newRule: string, ghost s: string, ghost name: string)
    returns (ruleEnd: nat, superseded: bool)
    requires Holds(buf[..], s) && ' ' !in name
    requires p + 1 + |name| <= |s| && s[p + 1..p + 1 + |name|] == name
    requires p + 1 + |name| < |s| ==> s[p + 1 + |name|] == ' '
    ensures ruleEnd == p + 1 + |name| && (superseded <==> Supersedes(newRule, name))
  {
    hide Supersedes;
    ruleEnd := FindSpace(buf, p + 1, s);
    EndOfRule(s, name, p + 1, ruleEnd);
    var existingLen := ruleEnd - (p + 1);
    var same := SameChars(buf, p + 1, newRule, if existingLen < |newRule| then existingLen else |newRule|);
    superseded := same && (existingLen == |newRule| || (existingLen > |newRule| && buf[p + 1 + |newRule|] == '|'));
    SupersedesByPrefix(buf[..], s, p + 1, name, newRule, same);
  }

  /** What the scan keeps true: the buffer holds `done` and `rest`, and `done` is what is kept of the pieces seen. */
  ghost predicate Scan(s: string, text: string, newRule: string, done: seq<string>, rest: seq<string>, p: nat) {
    && PiecesOk(rest) && ScanAt(s, done, rest, p)
    && KeptPieces(Pieces(text), newRule) == done + KeptPieces(rest, newRule)
  }

  lemma RestIsOk(pieces: seq<string>)
    requires PiecesOk(pieces) && pieces != []
    ensures PiecesOk(pieces[1..])
  {}

  lemma KeptOfRest(rest: seq<string>, newRule: string)
    requires rest != []
    ensures KeptPieces(rest, newRule) ==
            (if Matches(newRule, rest[0]) then [] else [rest[0]]) + KeptPieces(rest[1..], newRule)
  {
    hide KeptPieces, Matches;
    assert rest == [rest[0]] + rest[1..];
    KeptFirst(rest[0], rest[1..], newRule);
  }

  lemma ScanDrop(
    s: string, text: string, newRule: string, done: seq<string>, rest: seq<string>, p: nat, dst: nat, src: nat)
    requires Scan(s, text, newRule, done, rest, p) && rest != [] && Matches(newRule, rest[0])
    requires dst == if |rest| == 1 && p != 0 then p - 1 else p
    requires src == p + |rest[0]| + if |rest| == 1 then 0 else 1
    ensures dst <= src <= |s| && Scan(s[..dst] + s[src..], text, newRule, done, rest[1..], dst)
  {
    hide ScanAt, Matches, PiecesOk, KeptPieces, Pieces;
    CutOut(s, done, rest, p, dst, src);
    KeptOfRest(rest, newRule);
    RestIsOk(rest);
    assert [] + KeptPieces(rest[1..], newRule) == KeptPieces(rest[1..], newRule);
  }

  lemma ScanKeep(s: string, text: string, newRule: string, done: seq<string>, rest: seq<string>, p: nat)
    requires Scan(s, text, newRule, done, rest, p) && rest != [] && !Matches(newRule, rest[0])
    ensures Scan(s, text, newRule, done + [rest[0]], rest[1..], p + |rest[0]| + if |rest| == 1 then 0 else 1)
  {
    hide ScanAt, Matches, PiecesOk, KeptPieces, Pieces;
    StepOver(s, done, rest, p);
    KeptOfRest(rest, newRule);
    RestIsOk(rest);
    var kept := KeptPieces(rest[1..], newRule);
    assert done + ([rest[0]] + kept) == done + [rest[0]] + kept;
  }

  lemma ScanStart(text: string, newRule: string)
    ensures Scan(text, text, newRule, [], Pieces(text), 0)
  {
    hide Join, Pieces, KeptPieces;
    JoinOfPieces(text);
    assert [] + Pieces(text) == Pieces(text);
    assert [] + KeptPieces(Pieces(text), newRule) == KeptPieces(Pieces(text), newRule);
    BeforeIs([]);
    if Pieces(text) == [] {
      NoPieces();
    }
  }

  lemma NothingIsKept(newRule: string)
    ensures KeptPieces([], newRule) == [] && KeptPieces([""], newRule) == [""]
  {
    assert [""][1..] == [];
  }

  /** At the end of the text nothing is left but, maybe, an empty piece behind a last space. */
  lemma ScanEnd(s: string, text: string, newRule: string, done: seq<string>, rest: seq<string>, p: nat)
    requires Scan(s, text, newRule, done, rest, p) && p == |s|
    ensures s == TextWithout(text, newRule)
  {
    hide Join, Pieces, KeptPieces;
    ScanText(s, done, rest, p);
    assert rest == [] || rest == [""];
    NothingIsKept(newRule);
    assert done + KeptPieces(rest, newRule) == done + rest;
  }

  lemma ScanPiece(s: string, text: string, newRule: string, done: seq<string>, rest: seq<string>, p: nat)
    requires Scan(s, text, newRule, done, rest, p)
    ensures p <= |s| && (rest == [] ==> p == |s|)
    ensures p < |s| ==>
              var e := p + |rest[0]|;
              && rest[0] != "" && e <= |s| && s[p + 1..e] == rest[0][1..] && ' ' !in rest[0][1..]
              && (if |rest| == 1 then e == |s| else e < |s| && s[e] == ' ')
  {
    hide ScanAt, Join, Pieces, KeptPieces;
    ScanText(s, done, rest, p);
    if p < |s| {
      assert rest[0] == "" ==> |rest| == 1;
      SliceMore(s, p, p + |rest[0]|);
    }
  }

  /**
   ACLSelectorRemoveCommandRule: drops, in place, every piece of the text for `newRule` and for what it extends
   with '|'. The buffer ends as the remaining pieces, joined by single spaces.
   */
  method RemoveCommandRule(buf: array<char>, newRule: string, ghost text: string)
    requires Holds(buf[..], text)
    modifies buf
    ensures Holds(buf[..], TextWithout(text, newRule))
  {
    hide Scan, Supersedes, KeptPieces, Pieces, TextWithout;
    var existing := 0;
    ghost var done, rest, s := [], Pieces(text), text;
    ScanStart(text, newRule);
    HeldChar(buf[..], s, 0);
    while buf[existing] != '\0'
      invariant Holds(buf[..], s) && Scan(s, text, newRule, done, rest, existing)
      invariant existing <= |s| < buf.Length
      decreases |rest|
    {
      HeldChar(buf[..], s, existing);
      ScanPiece(s, text, newRule, done, rest, existing);
      var copyPosition := existing;
      var ruleEnd, superseded := MatchRule(buf, existing, newRule, s, rest[0][1..]);
      HeldChar(buf[..], s, ruleEnd);
      if buf[ruleEnd] == '\0' && copyPosition != 0 {
        copyPosition := copyPosition - 1;
      }
      var copyEnd := if buf[ruleEnd] == ' ' then ruleEnd + 1 else ruleEnd;
      if superseded {
        ScanDrop(s, text, newRule, done, rest, existing, copyPosition, copyEnd);
        MoveTail(buf, copyPosition, copyEnd, s);
        s := s[..copyPosition] + s[copyEnd..];
        existing := copyPosition;
      } else {
        ScanKeep(s, text, newRule, done, rest, existing);
        done := done + [rest[0]];
        existing := copyEnd;
      }
      rest := rest[1..];
      ScanPiece(s, text, newRule, done, rest, existing);
    }
    ScanPiece(s, text, newRule, done, rest, existing);
    HeldChar(buf[..], s, existing);
    ScanEnd(s, text, newRule, done, rest, existing);
  }
}
