/** Putting selectors together that are spread across several arguments, as a loop. */
module AclMerge {
  import opened AclText
  import opened AclCommands
  import opened AclSelector
  import opened AclUser

  predicate NoneCloses(argv: seq<string>) {
    forall i :: 0 <= i < |argv| ==> !Closes(argv[i])
  }

  /** The argument at `i` opens a selector, and nothing behind it closes one. */
  predicate UnclosedAt(argv: seq<string>, i: int) {
    0 <= i < |argv| && Opens(argv[i]) && NoneCloses(argv[i + 1..])
  }

  lemma UnclosedTail(argv: seq<string>, i: int)
    requires argv != []
    ensures UnclosedAt(argv[1..], i) ==> UnclosedAt(argv, i + 1)
    ensures i > 0 && UnclosedAt(argv, i) ==> UnclosedAt(argv[1..], i - 1)
  {
    if 0 <= i < |argv| - 1 {
      assert argv[1..][i + 1..] == argv[i + 2..];
    }
    if 0 < i < |argv| {
      assert argv[1..][i - 1 + 1..] == argv[i + 1..];
    }
  }

  /** Merging fails exactly if a selector is open, or opened, that nothing behind it closes. */
  lemma {:induction false} MergeFailsIff(argv: seq<string>, open: Option<string>)
    ensures MergeArgs(argv, open).None? <==>
              (exists i :: UnclosedAt(argv, i)) || (open.Some? && NoneCloses(argv))
    decreases |argv|
  {
    if argv != [] {
      hide Opens, Closes;
      OpensOrCloses(argv[0]);
      var next := if open.None? && Opens(argv[0]) then Some(argv[0])
                  else if open.Some? && !Closes(argv[0]) then Some(open.value + " " + argv[0])
                  else None;
      MergeFailsIff(argv[1..], next);
      if i :| UnclosedAt(argv[1..], i) {
        UnclosedTail(argv, i);
      }
      if i :| UnclosedAt(argv, i) && i > 0 {
        UnclosedTail(argv, i);
      }
      assert UnclosedAt(argv, 0) <==> Opens(argv[0]) && NoneCloses(argv[1..]);
      assert NoneCloses(argv) <==> !Closes(argv[0]) && NoneCloses(argv[1..]);
    }
  }

  lemma OpensOrCloses(op: string)
    ensures !(Opens(op) && Closes(op))
  {}

  /** What the rest of the arguments adds to those merged already. */
  function Behind(merged: seq<string>, rest: Option<seq<string>>): Option<seq<string>> {
    match rest case None => None case Some(r) => Some(merged + r)
  }

  lemma BehindMore(merged: seq<string>, op: string, rest: Option<seq<string>>)
    ensures Behind(merged, match rest case None => None case Some(r) => Some([op] + r)) == Behind(merged + [op], rest)
  {
    if rest.Some? {
      assert merged + ([op] + rest.value) == merged + [op] + rest.value;
    }
  }

  /** ACLMergeSelectorArguments. On an unmatched parenthesis, `invalid` is where the selector starts. */
  method MergeSelectorArguments(argv: seq<string>) returns (merged: Option<seq<string>>, invalid: nat)
    ensures merged == MergeArgs(argv, None)
    ensures merged.None? ==> UnclosedAt(argv, invalid)
  {
    hide Opens, Closes, Behind;
    var done: seq<string> := [];
    var open: Option<string> := None;
    invalid := 0;
    BehindNothing(MergeArgs(argv, None));
    for j := 0 to |argv|
      invariant MergeArgs(argv, None) == Behind(done, MergeArgs(argv[j..], open))
      invariant open.Some? ==> invalid < j && Opens(argv[invalid]) && forall k :: invalid < k < j ==> !Closes(argv[k])
    {
      assert argv[j..][1..] == argv[j + 1..];
      if open.None? && Opens(argv[j]) {
        open, invalid := Some(argv[j]), j;
        continue;
      }
      if open.Some? {
        var selector := open.value + " " + argv[j];
        if Closes(argv[j]) {
          BehindMore(done, selector, MergeArgs(argv[j + 1..], None));
          open, done := None, done + [selector];
        } else {
          open := Some(selector);
        }
        continue;
      }
      BehindMore(done, argv[j], MergeArgs(argv[j + 1..], None));
      done := done + [argv[j]];
    }
    BehindEnd(done);
    merged := if open.Some? then None else Some(done);
  }

  lemma BehindNothing(rest: Option<seq<string>>)
    ensures Behind([], rest) == rest
  {
    if rest.Some? {
      assert [] + rest.value == rest.value;
    }
  }

  lemma BehindEnd(merged: seq<string>)
    ensures Behind(merged, Some([])) == Some(merged) && Behind(merged, None) == None
  {
    assert merged + [] == merged;
  }
}
