/** Text helpers of the ACL engine: ASCII case folding, splitting and joining. */
module AclText {

  datatype Option<+T> = None | Some(value: T)

  function LowerChar(c: char): char {
    if 'A' <= c <= 'Z' then (c as int + 32) as char else c
  }

  function Lower(s: string): (r: string)
    ensures |r| == |s|
    ensures forall i :: 0 <= i < |s| ==> r[i] == LowerChar(s[i])
  {
    seq(|s|, i requires 0 <= i < |s| => LowerChar(s[i]))
  }

  /** strcasecmp(a, b) == 0 */
  predicate EqNoCase(a: string, b: string) {
    Lower(a) == Lower(b)
  }

  lemma DifferAt(a: string, b: string, i: nat)
    requires i < |a| && i < |b| && LowerChar(a[i]) != LowerChar(b[i])
    ensures !EqNoCase(a, b)
  {
    assert Lower(a)[i] != Lower(b)[i];
  }

  lemma LowerIdempotent(s: string)
    ensures Lower(Lower(s)) == Lower(s)
  {}

  lemma LowerAt(s: string, i: nat)
    requires i <= |s|
    ensures Lower(s[..i]) == Lower(s)[..i]
    ensures Lower(s[i..]) == Lower(s)[i..]
  {}

  lemma LowerKeeps(s: string, c: char)
    requires c < 'A'
    ensures c in Lower(s) <==> c in s
  {
    assert forall i :: 0 <= i < |s| ==> (Lower(s)[i] == c <==> s[i] == c);
  }

  lemma LowerKeepsBars(s: string)
    ensures '|' in Lower(s) <==> '|' in s
  {
    assert forall i :: 0 <= i < |s| ==> (Lower(s)[i] == '|' <==> s[i] == '|');
  }

  /** Where `c` first occurs in `s`, or |s|: strchr. */
  function IndexOf(s: string, c: char): (i: nat)
    ensures i <= |s|
    ensures forall j :: 0 <= j < i ==> s[j] != c
    ensures i < |s| ==> s[i] == c
  {
    if s == "" || s[0] == c then 0 else IndexOf(s[1..], c) + 1
  }

  lemma IndexOfUnique(s: string, c: char, i: nat)
    requires i <= |s| && (forall j :: 0 <= j < i ==> s[j] != c) && (i < |s| ==> s[i] == c)
    ensures IndexOf(s, c) == i
  {
    var k := IndexOf(s, c);
    assert k == |s| || s[k] == c;
  }

  /** What a C function sees of a string: it ends at the first NUL. */
  function CString(s: string): (c: string)
    ensures '\0' !in c && c <= s
    ensures '\0' !in s ==> c == s
  {
    s[..IndexOf(s, '\0')]
  }

  /** isspace */
  predicate IsSpace(c: char) {
    c == ' ' || '\t' <= c <= '\r'
  }

  /** Where `c` last occurs in `s`, or |s|: strrchr. */
  function LastIndexOf(s: string, c: char): (i: nat)
    ensures i <= |s|
    ensures i < |s| ==> s[i] == c && forall j :: i < j < |s| ==> s[j] != c
    ensures i == |s| ==> c !in s
  {
    if s == "" then 0
    else if s[|s| - 1] == c then |s| - 1
    else
      var k := LastIndexOf(s[..|s| - 1], c);
      if k == |s| - 1 then |s| else k
  }

  lemma LastIndexOfLower(s: string)
    ensures LastIndexOf(Lower(s), '|') == LastIndexOf(s, '|')
  {
    var i, k := LastIndexOf(s, '|'), LastIndexOf(Lower(s), '|');
    if i < |s| { assert Lower(s)[i] == '|'; }
    if k < |s| { assert s[k] == '|'; }
  }

  /** Splitting on every occurrence of `sep` (sdssplitlen); the empty string has no field. */
  function Split(s: string, sep: char): seq<string> {
    if s == "" then [] else Fields(s, sep)
  }

  function Fields(s: string, sep: char): (r: seq<string>)
    ensures |r| > 0
    decreases |s|
  {
    var i := IndexOf(s, sep);
    if i == |s| then [s] else [s[..i]] + Fields(s[i + 1..], sep)
  }

  function Join(fields: seq<string>, sep: char): string {
    if fields == [] then ""
    else if |fields| == 1 then fields[0]
    else fields[0] + [sep] + Join(fields[1..], sep)
  }

  predicate FreeOf(fields: seq<string>, sep: char) {
    forall i :: 0 <= i < |fields| ==> sep !in fields[i]
  }

  lemma {:induction false} FieldsOfJoin(fields: seq<string>, sep: char)
    requires |fields| > 0 && FreeOf(fields, sep)
    ensures Fields(Join(fields, sep), sep) == fields
  {
    var s := Join(fields, sep);
    if |fields| == 1 {
      IndexOfUnique(s, sep, |s|);
    } else {
      IndexOfUnique(s, sep, |fields[0]|);
      assert s[..|fields[0]|] == fields[0];
      assert s[|fields[0]| + 1..] == Join(fields[1..], sep);
      FieldsOfJoin(fields[1..], sep);
    }
  }

  lemma {:induction false} JoinOfFields(s: string, sep: char)
    ensures FreeOf(Fields(s, sep), sep)
    ensures Join(Fields(s, sep), sep) == s
    decreases |s|
  {
    var i := IndexOf(s, sep);
    if i < |s| {
      JoinOfFields(s[i + 1..], sep);
      assert s == s[..i] + [sep] + s[i + 1..];
    }
  }

  lemma {:induction false} JoinAppend(fields: seq<string>, last: string, sep: char)
    ensures Join(fields + [last], sep) == if fields == [] then last else Join(fields, sep) + [sep] + last
  {
    if |fields| > 1 {
      JoinAppend(fields[1..], last, sep);
      assert (fields + [last])[1..] == fields[1..] + [last];
    } else if |fields| == 1 {
      assert (fields + [last])[1..] == [last];
    }
  }

  lemma {:induction false} JoinConcat(a: seq<string>, b: seq<string>, sep: char)
    requires a != [] && b != []
    ensures Join(a + b, sep) == Join(a, sep) + [sep] + Join(b, sep)
  {
    if |a| == 1 {
      assert (a + b)[1..] == b;
    } else {
      JoinConcat(a[1..], b, sep);
      assert (a + b)[1..] == a[1..] + b;
    }
  }
}
