/** What the words of a rule mean for the requests that are checked later, from the word to the decision. */
module AclDecision {
  import opened AclText
  import opened AclCommands
  import opened AclSelector
  import opened AclReplay
  import opened AclUser
  import opened AclStoredRules
  import opened AclCheck
  import opened AclMeaning

  /** Does a pattern stand for the key of a request? */
  predicate Fitting(m: Matching, pattern: string, k: KeyRef, key: string) {
    if k.isPrefix then m.prefix(pattern, key) else m.glob(pattern, key)
  }

  /** The permission a selector gave to a pattern before. */
  ghost predicate ReadBefore(s: Selector, pattern: string) {
    exists i :: 0 <= i < |s.patterns| && s.patterns[i].pattern == pattern && s.patterns[i].read
  }

  ghost predicate WriteBefore(s: Selector, pattern: string) {
    exists i :: 0 <= i < |s.patterns| && s.patterns[i].pattern == pattern && s.patterns[i].write
  }

  /**
   "%R~p" makes the keys that match p readable, "%W~p" writable, and "~p" both, together with what p granted before. No
   other use of a key is granted.
   */
  lemma KeyWordDecides(
    m: Matching, t: Table, s: Selector, prefix: string, pattern: string, read: bool, write: bool, k: KeyRef, key: string)
    requires ValidKeys(s) && Prefix(prefix, read, write) && '\0' !in pattern && !(prefix == "~" && pattern == "*")
    requires SetSelector(t, s, prefix + pattern).Ok?
    ensures KeyAllowed(m, SetSelector(t, s, prefix + pattern).value, k, key) <==>
            || KeyAllowed(m, s, k, key)
            || (&& Fitting(m, pattern, k, key)
                && (k.needsRead ==> read || ReadBefore(s, pattern)) && (k.needsWrite ==> write || WriteBefore(s, pattern)))
  {
    hide SetSelector, Prefix;
    KeyWordMeans(t, s, prefix, pattern, read, write);
    var s' := SetSelector(t, s, prefix + pattern).value;
    GrantedDecides(m, s, s', pattern, read, write, k, key);
  }

  lemma GrantedDecides(
    m: Matching, s: Selector, s': Selector, pattern: string, read: bool, write: bool, k: KeyRef, key: string)
    requires !s.allKeys && !s'.allKeys && ValidPatterns(s.patterns) && Granted(s.patterns, pattern, read, write, s'.patterns)
    ensures KeyAllowed(m, s', k, key) <==>
            || KeyAllowed(m, s, k, key)
            || (&& Fitting(m, pattern, k, key)
                && (k.needsRead ==> read || ReadBefore(s, pattern)) && (k.needsWrite ==> write || WriteBefore(s, pattern)))
  {
    var ps, ps' := s.patterns, s'.patterns;
    if j :| 0 <= j < |ps| && ps[j].pattern == pattern {
      assert ps'[j] == KeyPattern(pattern, ps[j].read || read, ps[j].write || write);
      assert forall i :: 0 <= i < |ps| && i != j ==> ps'[i] == ps[i];
      assert ReadBefore(s, pattern) <==> ps[j].read;
      assert WriteBefore(s, pattern) <==> ps[j].write;
      assert PatternGrants(m, ps[j], k, key) ==> PatternGrants(m, ps'[j], k, key);
    } else {
      assert forall i :: 0 <= i < |ps| ==> ps'[i] == ps[i];
      assert ps'[|ps|] == KeyPattern(pattern, read, write);
    }
  }

  /** "&c" makes the channels that match c usable, and for patterns the pattern c itself. */
  lemma ChannelWordDecides(m: Matching, t: Table, s: Selector, channel: string, used: string, isPattern: bool)
    requires channel != "*" && '\0' !in channel && SetSelector(t, s, "&" + channel).Ok?
    ensures ChannelAllowed(m, SetSelector(t, s, "&" + channel).value, used, isPattern) <==>
            ChannelAllowed(m, s, used, isPattern) || (if isPattern then used == channel else m.glob(channel, used))
  {
    hide SetSelector;
    ChannelWordMeans(t, s, channel);
    var s' := SetSelector(t, s, "&" + channel).value;
    if channel in s.channels {
      var i :| 0 <= i < |s.channels| && s.channels[i] == channel;
    } else {
      assert forall i :: 0 <= i < |s.channels| ==> s'.channels[i] == s.channels[i];
      assert s'.channels[|s.channels|] == channel;
    }
  }

  /** "+command|word", for a command without subcommands, allows the requests whose first argument is that word. */
  lemma FirstArgDecides(t: Table, s: Selector, op: string, k: nat, r: Request)
    requires Signed(op) && OneBar(op, k) && op[0] == '+' && SetSelector(t, s, op).Ok?
    requires Lower(op[1..k]) in t.commands && t.commands[Lower(op[1..k])].subs == map[]
    requires r.id == t.commands[Lower(op[1..k])].id && !r.isSubcommand
    ensures CommandAllowed(SetSelector(t, s, op).value, r) <==>
            CommandAllowed(s, r) || (|r.argv| >= 2 && Lower(r.argv[1]) == Lower(op[k + 1..]))
  {
    hide SetSelector, Lower, Signed;
    AllowedSubMeans(t, s, op, k);
    BarWordFlag(t, s, op, k);
    var s', rest := SetSelector(t, s, op).value, op[k + 1..];
    var have, now := ArgsFor(s.commands.firstArgs, r.id), ArgsFor(s'.commands.firstArgs, r.id);
    if |r.argv| >= 2 {
      ArgAdded(have, now, rest, r.argv[1]);
    }
  }

  lemma ArgAdded(have: seq<string>, now: seq<string>, rest: string, arg: string)
    requires now == if exists i :: 0 <= i < |have| && Lower(have[i]) == Lower(rest) then have else have + [rest]
    ensures now != [] && (HasArg(now, arg) <==> (have != [] && HasArg(have, arg)) || Lower(arg) == Lower(rest))
  {
    hide Lower;
    if i :| 0 <= i < |have| && Lower(have[i]) == Lower(rest) {
    } else {
      assert forall i :: 0 <= i < |have| ==> now[i] == have[i];
      assert now[|have|] == rest;
    }
  }

  /** A new selector allows nothing, but commands that need no permission and, if that is the default, the channels. */
  lemma NewSelectorDecides(m: Matching, root: bool, pubsubDefault: bool, r: Request)
    requires ValidRequest(r)
    ensures FitsSelector(r, NewSelector(root, pubsubDefault))
    ensures Accepts(m, NewSelector(root, pubsubDefault), r) <==>
            && r.noAuth && (r.hasKeys ==> r.keys == [])
            && (r.hasChannels && !pubsubDefault ==> forall c :: c in r.channels ==> !c.checked)
  {
    var s := NewSelector(root, pubsubDefault);
    if r.hasKeys && r.keys != [] {
      assert !KeyAllowed(m, s, r.keys[0], r.argv[r.keys[0].pos]);
    }
    forall i | 0 <= i < |r.channels| ensures r.channels[i] in r.channels {}
  }

  /** With all commands, one key pattern and one channel pattern, exactly the keys and channels they match are allowed. */
  lemma OneOfEachDecides(m: Matching, t: Table, s: Selector, pattern: string, channel: string, r: Request)
    requires ValidRequest(r) && s.commands == EveryCommand && FitsSelector(r, s)
    requires !s.allKeys && s.patterns == [KeyPattern(pattern, true, true)] && !s.allChannels && s.channels == [channel]
    ensures Accepts(m, s, r) <==>
            && (r.hasKeys ==> forall k :: k in r.keys ==> Fitting(m, pattern, k, r.argv[k.pos]))
            && (r.hasChannels ==> forall c :: c in r.channels && c.checked ==>
                  if c.isPattern then r.argv[c.pos] == channel else m.glob(channel, r.argv[c.pos]))
  {
    hide KeyAllowed, ChannelAllowed, Fitting;
    forall i | 0 <= i < |r.keys|
      ensures r.keys[i] in r.keys
      ensures KeyAllowed(m, s, r.keys[i], r.argv[r.keys[i].pos]) <==> Fitting(m, pattern, r.keys[i], r.argv[r.keys[i].pos]) {
      OneKey(m, s, pattern, r.keys[i], r.argv[r.keys[i].pos]);
    }
    forall i | 0 <= i < |r.channels|
      ensures r.channels[i] in r.channels
      ensures var c := r.channels[i];
              ChannelAllowed(m, s, r.argv[c.pos], c.isPattern) <==>
              if c.isPattern then r.argv[c.pos] == channel else m.glob(channel, r.argv[c.pos]) {
      OneChannel(m, s, channel, r.argv[r.channels[i].pos], r.channels[i].isPattern);
    }
  }

  lemma OneKey(m: Matching, s: Selector, pattern: string, k: KeyRef, key: string)
    requires !s.allKeys && s.patterns == [KeyPattern(pattern, true, true)]
    ensures KeyAllowed(m, s, k, key) <==> Fitting(m, pattern, k, key)
  {
    assert s.patterns[0] == KeyPattern(pattern, true, true);
  }

  lemma OneChannel(m: Matching, s: Selector, channel: string, used: string, isPattern: bool)
    requires !s.allChannels && s.channels == [channel]
    ensures ChannelAllowed(m, s, used, isPattern) <==> if isPattern then used == channel else m.glob(channel, used)
  {
    assert s.channels[0] == channel;
  }

  /**
   Which denial is reported when every selector denies: that of a channel, 4, if some selector allows the command and
   all keys, else that of a key, 2, if some selector allows the command, else that of the command, 1.
   */
  lemma WhichDenial(m: Matching, selectors: seq<Selector>, r: Request, v: Verdict)
    requires ValidRequest(r) && AllFit(r, selectors) && Decides(m, selectors, r, v)
    requires forall i :: 0 <= i < |selectors| ==> !Accepts(m, selectors[i], r)
    ensures v.code == (if exists i :: 0 <= i < |selectors| && GetsToChannels(m, selectors[i], r) then 4
                       else if exists i :: 0 <= i < |selectors| && CommandAllowed(selectors[i], r) then 2
                       else 1)
  {
    hide KeyAllowed, ChannelAllowed, CommandAllowed, Accepts;
    if selectors != [] {
      var i :| 0 <= i < |selectors| && Answers(m, selectors[i], r, v);
      DenialOf(m, selectors[i], r, v);
      forall j | 0 <= j < |selectors|
        ensures exists w :: Answers(m, selectors[j], r, w) && AtMost(w, v) && w.code == CodeOf(m, selectors[j], r) {
        var w := AnswerOf(m, selectors[j], r);
        DenialOf(m, selectors[j], r, w);
      }
    }
  }

  /** The command and all keys are allowed. */
  predicate GetsToChannels(m: Matching, s: Selector, r: Request)
    requires ValidRequest(r) && FitsSelector(r, s)
  {
    && CommandAllowed(s, r)
    && (r.hasKeys ==> forall i :: 0 <= i < |r.keys| ==> KeyAllowed(m, s, r.keys[i], r.argv[r.keys[i].pos]))
  }

  function CodeOf(m: Matching, s: Selector, r: Request): int
    requires ValidRequest(r) && FitsSelector(r, s)
  {
    if GetsToChannels(m, s, r) then 4 else if CommandAllowed(s, r) then 2 else 1
  }

  lemma DenialOf(m: Matching, s: Selector, r: Request, v: Verdict)
    requires ValidRequest(r) && FitsSelector(r, s) && !Accepts(m, s, r) && Answers(m, s, r, v)
    ensures v.code == CodeOf(m, s, r)
  {
    hide KeyAllowed, ChannelAllowed, CommandAllowed;
  }

  /** Every selector answers. */
  lemma AnswerOf(m: Matching, s: Selector, r: Request) returns (v: Verdict)
    requires ValidRequest(r) && FitsSelector(r, s)
    ensures Answers(m, s, r, v)
  {
    hide KeyAllowed, ChannelAllowed, CommandAllowed;
    if !CommandAllowed(s, r) {
      return Verdict(ACL_DENIED_CMD, 0);
    }
    if r.hasKeys && exists i :: 0 <= i < |r.keys| && !KeyAllowed(m, s, r.keys[i], r.argv[r.keys[i].pos]) {
      var i := FirstDeniedKey(m, s, r, 0);
      return Verdict(ACL_DENIED_KEY, r.keys[i].pos);
    }
    if r.hasChannels && exists i :: 0 <= i < |r.channels| && ChannelDenied(m, s, r, r.channels[i]) {
      var i := FirstDeniedChannel(m, s, r, 0);
      return Verdict(ACL_DENIED_CHANNEL, r.channels[i].pos);
    }
    return Verdict(ACL_OK, 0);
  }

  lemma FirstDeniedKey(m: Matching, s: Selector, r: Request, from: nat) returns (i: nat)
    requires ValidRequest(r) && exists j :: from <= j < |r.keys| && !KeyAllowed(m, s, r.keys[j], r.argv[r.keys[j].pos])
    requires forall j :: 0 <= j < from ==> KeyAllowed(m, s, r.keys[j], r.argv[r.keys[j].pos])
    ensures DeniesKeyFirst(m, s, r, i)
    decreases |r.keys| - from
  {
    hide KeyAllowed;
    if !KeyAllowed(m, s, r.keys[from], r.argv[r.keys[from].pos]) {
      i := from;
    } else {
      i := FirstDeniedKey(m, s, r, from + 1);
    }
  }

  lemma FirstDeniedChannel(m: Matching, s: Selector, r: Request, from: nat) returns (i: nat)
    requires ValidRequest(r) && exists j :: from <= j < |r.channels| && ChannelDenied(m, s, r, r.channels[j])
    requires forall j :: 0 <= j < from ==> !ChannelDenied(m, s, r, r.channels[j])
    ensures DeniesChannelFirst(m, s, r, i)
    decreases |r.channels| - from
  {
    hide ChannelDenied;
    if ChannelDenied(m, s, r, r.channels[from]) {
      i := from;
    } else {
      i := FirstDeniedChannel(m, s, r, from + 1);
    }
  }
}
