/** Checking a command against a user: one selector, then all of them with a shared key cache. */
module AclCheck {
  import opened AclText
  import opened AclCommands
  import opened AclSelector
  import opened AclReplay

  /** stringmatchlen and prefixmatch, left uninterpreted. */
  datatype Matching = Matching(glob: (string, string) -> bool, prefix: (string, string) -> bool)

  /** A key found in the arguments: where, which permissions its use needs, and whether it names a set of keys. */
  datatype KeyRef = KeyRef(pos: nat, needsRead: bool, needsWrite: bool, isPrefix: bool)

  /** A channel found in the arguments; `checked` when it is published or subscribed to. */
  datatype ChannelRef = ChannelRef(pos: nat, checked: bool, isPattern: bool)

  /** The command at hand; `keys` and `channels` are what extracting them from `argv` yields. */
  datatype Request = Request(
    id: nat, noAuth: bool, isSubcommand: bool, hasKeys: bool, hasChannels: bool,
    argv: seq<string>, keys: seq<KeyRef>, channels: seq<ChannelRef>)

  const ACL_OK: int := 0
  const ACL_DENIED_CMD: int := 1
  const ACL_DENIED_KEY: int := 2
  const ACL_DENIED_CHANNEL: int := 4

  /** An ACL_* code, with the argument that caused it (0 for the command itself). */
  datatype Verdict = Verdict(code: int, index: nat)

  predicate ValidRequest(r: Request) {
    && (forall i :: 0 <= i < |r.keys| ==> r.keys[i].pos < |r.argv|)
    && (forall i :: 0 <= i < |r.channels| ==> r.channels[i].pos < |r.argv|)
  }

  /** A subcommand's first argument is only read when the selector keeps first-args for it, which it never does. */
  predicate FitsSelector(r: Request, s: Selector) {
    r.isSubcommand && |r.argv| <= 2 ==> ArgsFor(s.commands.firstArgs, r.id) == []
  }

  // ---- what one selector allows ----

  predicate FirstArgAllowed(s: Selector, r: Request)
    requires FitsSelector(r, s)
  {
    var args := ArgsFor(s.commands.firstArgs, r.id);
    |r.argv| >= 2 && args != [] && HasArg(args, r.argv[if r.isSubcommand then 2 else 1])
  }

  predicate CommandAllowed(s: Selector, r: Request)
    requires FitsSelector(r, s)
  {
    s.commands.allCommands || r.noAuth || r.id in s.commands.bits || FirstArgAllowed(s, r)
  }

  predicate PatternGrants(m: Matching, p: KeyPattern, k: KeyRef, key: string) {
    && (k.needsRead ==> p.read) && (k.needsWrite ==> p.write)
    && if k.isPrefix then m.prefix(p.pattern, key) else m.glob(p.pattern, key)
  }

  predicate KeyAllowed(m: Matching, s: Selector, k: KeyRef, key: string) {
    s.allKeys || exists i :: 0 <= i < |s.patterns| && PatternGrants(m, s.patterns[i], k, key)
  }

  predicate ListGrants(m: Matching, channels: seq<string>, channel: string, isPattern: bool) {
    exists i :: 0 <= i < |channels| && if isPattern then channels[i] == channel else m.glob(channels[i], channel)
  }

  predicate ChannelAllowed(m: Matching, s: Selector, channel: string, isPattern: bool) {
    s.allChannels || ListGrants(m, s.channels, channel, isPattern)
  }

  /** The reference: the command, all its keys and all its channels are allowed. */
  predicate Accepts(m: Matching, s: Selector, r: Request)
    requires ValidRequest(r) && FitsSelector(r, s)
  {
    && CommandAllowed(s, r)
    && (r.hasKeys ==> forall i :: 0 <= i < |r.keys| ==> KeyAllowed(m, s, r.keys[i], r.argv[r.keys[i].pos]))
    && (r.hasChannels ==> forall i :: 0 <= i < |r.channels| && r.channels[i].checked ==>
          ChannelAllowed(m, s, r.argv[r.channels[i].pos], r.channels[i].isPattern))
  }

  /** What a selector alone answers: the first thing it denies, command before keys before channels. */
  ghost predicate Answers(m: Matching, s: Selector, r: Request, v: Verdict)
    requires ValidRequest(r) && FitsSelector(r, s)
  {
    if !CommandAllowed(s, r) then v == Verdict(ACL_DENIED_CMD, 0)
    else if r.hasKeys && exists i :: 0 <= i < |r.keys| && !KeyAllowed(m, s, r.keys[i], r.argv[r.keys[i].pos]) then
      v.code == ACL_DENIED_KEY && exists i :: DeniesKeyFirst(m, s, r, i) && v.index == r.keys[i].pos
    else if r.hasChannels && exists i :: 0 <= i < |r.channels| && ChannelDenied(m, s, r, r.channels[i]) then
      v.code == ACL_DENIED_CHANNEL && exists i :: DeniesChannelFirst(m, s, r, i) && v.index == r.channels[i].pos
    else v == Verdict(ACL_OK, 0)
  }

  ghost predicate DeniesKeyFirst(m: Matching, s: Selector, r: Request, i: int)
    requires ValidRequest(r)
  {
    && 0 <= i < |r.keys| && !KeyAllowed(m, s, r.keys[i], r.argv[r.keys[i].pos])
    && forall j :: 0 <= j < i ==> KeyAllowed(m, s, r.keys[j], r.argv[r.keys[j].pos])
  }

  predicate ChannelDenied(m: Matching, s: Selector, r: Request, c: ChannelRef)
    requires c.pos < |r.argv|
  {
    c.checked && !ChannelAllowed(m, s, r.argv[c.pos], c.isPattern)
  }

  ghost predicate DeniesChannelFirst(m: Matching, s: Selector, r: Request, i: int)
    requires ValidRequest(r)
  {
    && 0 <= i < |r.channels| && ChannelDenied(m, s, r, r.channels[i])
    && forall j :: 0 <= j < i ==> !ChannelDenied(m, s, r, r.channels[j])
  }

  lemma AnswerIsUnique(m: Matching, s: Selector, r: Request, v: Verdict, w: Verdict)
    requires ValidRequest(r) && FitsSelector(r, s) && Answers(m, s, r, v) && Answers(m, s, r, w)
    ensures v == w
    ensures v.code == ACL_OK <==> Accepts(m, s, r)
  {
    if v.code == ACL_DENIED_KEY {
      var i :| DeniesKeyFirst(m, s, r, i) && v.index == r.keys[i].pos;
      var j :| DeniesKeyFirst(m, s, r, j) && w.index == r.keys[j].pos;
      assert i == j;
    } else if v.code == ACL_DENIED_CHANNEL {
      var i :| DeniesChannelFirst(m, s, r, i) && v.index == r.channels[i].pos;
      var j :| DeniesChannelFirst(m, s, r, j) && w.index == r.channels[j].pos;
      assert i == j;
    }
  }

  lemma AnswerCodes(m: Matching, s: Selector, r: Request, v: Verdict)
    requires ValidRequest(r) && FitsSelector(r, s) && Answers(m, s, r, v)
    ensures v.code in {ACL_OK, ACL_DENIED_CMD, ACL_DENIED_KEY, ACL_DENIED_CHANNEL}
    ensures v.code == ACL_OK <==> Accepts(m, s, r)
    ensures v.code == ACL_DENIED_CMD ==> v.index == 0
  {
    AnswerIsUnique(m, s, r, v, v);
  }

  // ---- one selector ----

  /** aclKeyResultCache */
  class KeyCache {
    var init: bool
    var keys: seq<KeyRef>

    constructor (known: Option<seq<KeyRef>>)
      ensures init == known.Some? && (init ==> keys == known.value)
    {
      init := known.Some?;
      keys := if known.Some? then known.value else [];
    }

    /** What is cached is what extraction yields. */
    ghost predicate Fits(r: Request)
      reads this
    {
      init ==> keys == r.keys
    }
  }

  /** ACLSelectorCheckKey */
  method CheckKey(m: Matching, s: Selector, k: KeyRef, key: string) returns (code: int)
    ensures code == if KeyAllowed(m, s, k, key) then ACL_OK else ACL_DENIED_KEY
  {
    if s.allKeys {
      return ACL_OK;
    }
    for i := 0 to |s.patterns|
      invariant forall j :: 0 <= j < i ==> !PatternGrants(m, s.patterns[j], k, key)
    {
      var p := s.patterns[i];
      if (k.needsRead ==> p.read) && (k.needsWrite ==> p.write) {
        if k.isPrefix {
          if m.prefix(p.pattern, key) {
            return ACL_OK;
          }
        } else if m.glob(p.pattern, key) {
          return ACL_OK;
        }
      }
    }
    return ACL_DENIED_KEY;
  }

  /** ACLCheckChannelAgainstList */
  method CheckChannel(m: Matching, reference: seq<string>, channel: string, isPattern: bool) returns (code: int)
    ensures code == if ListGrants(m, reference, channel, isPattern) then ACL_OK else ACL_DENIED_CHANNEL
  {
    for i := 0 to |reference|
      invariant !ListGrants(m, reference[..i], channel, isPattern)
    {
      assert reference[..i + 1] == reference[..i] + [reference[i]];
      if (isPattern && reference[i] == channel) || (!isPattern && m.glob(reference[i], channel)) {
        return ACL_OK;
      }
    }
    assert reference[..|reference|] == reference;
    return ACL_DENIED_CHANNEL;
  }

  /** The command part of ACLSelectorCheckCmd. */
  method CheckCommand(s: Selector, r: Request) returns (ok: bool)
    requires FitsSelector(r, s)
    ensures ok <==> CommandAllowed(s, r)
  {
    if s.commands.allCommands || r.noAuth || r.id in s.commands.bits {
      return true;
    }
    if |r.argv| < 2 || r.id !in s.commands.firstArgs {
      return false;
    }
    var args := s.commands.firstArgs[r.id];
    for sub := 0 to |args|
      invariant forall i :: 0 <= i < sub ==> !EqNoCase(args[i], r.argv[if r.isSubcommand then 2 else 1])
    {
      if EqNoCase(args[sub], r.argv[if r.isSubcommand then 2 else 1]) {
        return true;
      }
    }
    return false;
  }

  /**
   ACLSelectorCheckCmd. `keyidx` stands for *keyidxptr: it is passed in, and comes back as it was unless a key or
   a channel is denied.
   */
  method SelectorCheckCmd(m: Matching, s: Selector, r: Request, cache: KeyCache, keyidx: nat)
    returns (code: int, newidx: nat)
    requires ValidRequest(r) && FitsSelector(r, s) && cache.Fits(r)
    modifies cache
    ensures cache.Fits(r)
    ensures Answers(m, s, r, Verdict(code, if code == ACL_DENIED_KEY || code == ACL_DENIED_CHANNEL then newidx else 0))
    ensures code == ACL_DENIED_CMD ==> newidx == keyidx
  {
    newidx := keyidx;
    var ok := CheckCommand(s, r);
    if !ok {
      return ACL_DENIED_CMD, newidx;
    }
    if !s.allKeys && r.hasKeys {
      if !cache.init {
        cache.keys, cache.init := r.keys, true;
      }
      for j := 0 to |cache.keys|
        invariant cache.init && cache.keys == r.keys
        invariant forall i :: 0 <= i < j ==> KeyAllowed(m, s, r.keys[i], r.argv[r.keys[i].pos])
      {
        var k := cache.keys[j];
        code := CheckKey(m, s, k, r.argv[k.pos]);
        if code != ACL_OK {
          assert DeniesKeyFirst(m, s, r, j);
          return code, k.pos;
        }
      }
    }
    if !s.allChannels && r.hasChannels {
      for j := 0 to |r.channels|
        invariant forall i :: 0 <= i < j ==> !ChannelDenied(m, s, r, r.channels[i])
        invariant cache.Fits(r)
      {
        var c := r.channels[j];
        if c.checked {
          code := CheckChannel(m, s.channels, r.argv[c.pos], c.isPattern);
          if code != ACL_OK {
            assert DeniesChannelFirst(m, s, r, j);
            return code, c.pos;
          }
        }
      }
    }
    return ACL_OK, newidx;
  }

  // ---- all selectors ----

  /** Which error is reported: the later kind first, then the larger index. */
  predicate AtMost(v: Verdict, w: Verdict) {
    v.code < w.code || (v.code == w.code && v.index <= w.index)
  }

  predicate AllFit(r: Request, selectors: seq<Selector>) {
    forall i :: 0 <= i < |selectors| ==> FitsSelector(r, selectors[i])
  }

  /** The decision a list of selectors comes to: acceptance by one of them, or their greatest denial. */
  ghost predicate Decides(m: Matching, selectors: seq<Selector>, r: Request, v: Verdict)
    requires ValidRequest(r) && AllFit(r, selectors)
  {
    if exists i :: 0 <= i < |selectors| && Accepts(m, selectors[i], r) then v.code == ACL_OK
    else
      && (selectors == [] ==> v == Verdict(ACL_DENIED_CMD, 0))
      && (selectors != [] ==> exists i :: 0 <= i < |selectors| && Answers(m, selectors[i], r, v))
      && (forall i, w :: 0 <= i < |selectors| && Answers(m, selectors[i], r, w) ==> AtMost(w, v))
  }

  /** ACLCheckAllUserCommandPerm. `known` is the client's cached key result, if it has one; no user may do anything. */
  method CheckAllUserCommandPerm(m: Matching, user: Option<seq<Selector>>, r: Request, known: Option<seq<KeyRef>>)
    returns (v: Verdict)
    requires ValidRequest(r) && (user.Some? ==> AllFit(r, user.value)) && (known.Some? ==> known.value == r.keys)
    ensures user.None? ==> v.code == ACL_OK
    ensures user.Some? ==> Decides(m, user.value, r, v)
  {
    if user.None? {
      return Verdict(ACL_OK, 0);
    }
    var selectors := user.value;
    if selectors != [] {
      var s := selectors[0];
      if s.commands.allCommands && s.allKeys && s.allChannels {
        assert Accepts(m, s, r);
        return Verdict(ACL_OK, 0);
      }
    }
    hide Answers, Accepts;
    var relevantError, localIdx, lastIdx := ACL_DENIED_CMD, 0, 0;
    var cache := new KeyCache(known);
    for i := 0 to |selectors|
      invariant cache.Fits(r)
      invariant relevantError == ACL_DENIED_CMD ==> lastIdx == 0 && localIdx == 0
      invariant relevantError in {ACL_DENIED_CMD, ACL_DENIED_KEY, ACL_DENIED_CHANNEL}
      invariant Reported(m, selectors, r, i, Verdict(relevantError, lastIdx))
    {
      ghost var before := Verdict(relevantError, lastIdx);
      var code;
      code, localIdx := SelectorCheckCmd(m, selectors[i], r, cache, localIdx);
      ghost var mine := Verdict(code, if code == ACL_DENIED_KEY || code == ACL_DENIED_CHANNEL then localIdx else 0);
      AnswerCodes(m, selectors[i], r, mine);
      if code == ACL_OK {
        return Verdict(ACL_OK, 0);
      }
      if code > relevantError || (code == relevantError && localIdx > lastIdx) {
        relevantError := code;
        lastIdx := localIdx;
      }
      OneMoreReported(m, selectors, r, i, before, mine, Verdict(relevantError, lastIdx));
    }
    return Verdict(relevantError, lastIdx);
  }

  /** The first `n` selectors all deny, and `v` is their greatest denial. */
  ghost predicate Reported(m: Matching, selectors: seq<Selector>, r: Request, n: nat, v: Verdict)
    requires ValidRequest(r) && AllFit(r, selectors) && n <= |selectors|
  {
    && (forall j :: 0 <= j < n ==> !Accepts(m, selectors[j], r))
    && (n == 0 ==> v == Verdict(ACL_DENIED_CMD, 0))
    && (n > 0 ==> exists j :: 0 <= j < n && Answers(m, selectors[j], r, v))
    && (forall j, w :: 0 <= j < n && Answers(m, selectors[j], r, w) ==> AtMost(w, v))
  }

  lemma OneMoreReported(m: Matching, selectors: seq<Selector>, r: Request, n: nat, v: Verdict, mine: Verdict, w: Verdict)
    requires ValidRequest(r) && AllFit(r, selectors) && n < |selectors| && Reported(m, selectors, r, n, v)
    requires Answers(m, selectors[n], r, mine) && mine.code != ACL_OK && mine.code >= ACL_DENIED_CMD
    requires w == if AtMost(mine, v) then v else mine
    ensures Reported(m, selectors, r, n + 1, w)
  {
    AnswerIsUnique(m, selectors[n], r, mine, mine);
    forall x | Answers(m, selectors[n], r, x) ensures x == mine {
      AnswerIsUnique(m, selectors[n], r, mine, x);
    }
    hide Answers, Accepts;
    if n > 0 && w == v {
      var j :| 0 <= j < n && Answers(m, selectors[j], r, v);
      assert 0 <= j < n + 1;
    } else {
      assert w == mine;
    }
    assert AtMost(v, w) && AtMost(mine, w);
    forall j, x | 0 <= j < n + 1 && Answers(m, selectors[j], r, x) ensures AtMost(x, w) {
      assert if j == n then x == mine else AtMost(x, v);
    }
  }

  /** The decision depends on which selectors there are, not on their order or repetition. */
  lemma OrderDoesNotMatter(m: Matching, a: seq<Selector>, b: seq<Selector>, r: Request, v: Verdict, w: Verdict)
    requires ValidRequest(r) && AllFit(r, a) && AllFit(r, b) && (forall s :: s in a <==> s in b)
    requires Decides(m, a, r, v) && Decides(m, b, r, w)
    ensures v.code == w.code && (v.code != ACL_OK ==> v == w)
  {
    hide Answers, Accepts;
    if exists i :: 0 <= i < |a| && Accepts(m, a[i], r) { AcceptsBySome(m, a, b, r); }
    if exists i :: 0 <= i < |b| && Accepts(m, b[i], r) { AcceptsBySome(m, b, a, r); }
    BothEmpty(a, b);
    if !(exists i :: 0 <= i < |a| && Accepts(m, a[i], r)) && a != [] {
      var i :| 0 <= i < |a| && Answers(m, a[i], r, v);
      var j :| 0 <= j < |b| && Answers(m, b[j], r, w);
      assert a[i] in b && b[j] in a;
      var k :| 0 <= k < |b| && b[k] == a[i];
      var l :| 0 <= l < |a| && a[l] == b[j];
      assert AtMost(v, w) && AtMost(w, v);
    }
  }

  lemma AcceptsBySome(m: Matching, a: seq<Selector>, b: seq<Selector>, r: Request)
    requires ValidRequest(r) && AllFit(r, a) && AllFit(r, b) && (forall s :: s in a ==> s in b)
    requires exists i :: 0 <= i < |a| && Accepts(m, a[i], r)
    ensures exists i :: 0 <= i < |b| && Accepts(m, b[i], r)
  {
    hide Accepts;
    var i :| 0 <= i < |a| && Accepts(m, a[i], r);
    assert a[i] in b;
  }

  lemma BothEmpty(a: seq<Selector>, b: seq<Selector>)
    requires forall s :: s in a <==> s in b
    ensures a == [] <==> b == []
  {
    if a != [] { assert a[0] in b; }
    if b != [] { assert b[0] in a; }
  }

  /** A consistent selector keeps no first-args for subcommands, so the request always fits. */
  lemma ConsistentSelectorFits(t: Table, s: Selector, r: Request)
    requires Consistent(t, s.commands) && (r.isSubcommand ==> r.id in SubcommandIds(t))
    ensures FitsSelector(r, s)
  {
    if ArgsFor(s.commands.firstArgs, r.id) != [] {
      ListedArg(s.commands.firstArgs, r.id);
    }
  }

  lemma ListedArg(firstArgs: map<nat, seq<string>>, id: nat)
    requires ArgsFor(firstArgs, id) != []
    ensures exists x :: x in ArgsOf(firstArgs) && x.0 == id
  {
    assert (id, Lower(firstArgs[id][0])) in ArgsOf(firstArgs);
  }
}
