/** Disconnecting subscribers whose channels a permission change takes away. */
module AclPubsub {
  import opened AclText
  import opened AclSelector
  import opened AclCheck

  /** A heap string: where it lives, and its text. listSearchKey without a match method compares the addresses. */
  datatype Sds = Sds(addr: nat, text: string)

  /** The channel side of a selector. */
  datatype ChannelPerms = ChannelPerms(all: bool, channels: seq<Sds>)

  /** One text lives at one address. */
  ghost predicate Coherent(a: seq<ChannelPerms>, b: seq<ChannelPerms>) {
    forall s, t, i, j :: s in a && t in b && 0 <= i < |s.channels| && 0 <= j < |t.channels| ==>
      s.channels[i].addr == t.channels[j].addr ==> s.channels[i].text == t.channels[j].text
  }

  function Texts(channels: seq<Sds>): (r: seq<string>)
    ensures |r| == |channels| && forall i :: 0 <= i < |r| ==> r[i] == channels[i].text
  {
    seq(|channels|, i requires 0 <= i < |channels| => channels[i].text)
  }

  /** ACLUserCheckChannelPerm */
  ghost predicate Permitted(m: Matching, user: seq<ChannelPerms>, channel: string, isPattern: bool) {
    exists i :: 0 <= i < |user| && (user[i].all || ListGrants(m, Texts(user[i].channels), channel, isPattern))
  }

  /** All channels of all selectors, in order. */
  function AllChannelsOf(user: seq<ChannelPerms>): seq<Sds> {
    if user == [] then [] else AllChannelsOf(user[..|user| - 1]) + user[|user| - 1].channels
  }

  predicate HasAll(user: seq<ChannelPerms>) {
    exists i :: 0 <= i < |user| && user[i].all
  }

  predicate AddrIn(x: Sds, list: seq<Sds>) {
    exists i :: 0 <= i < |list| && list[i].addr == x.addr
  }

  /** Every channel of the original user is, by address, among those of the new user. */
  ghost predicate Kept(original: seq<ChannelPerms>, upcoming: seq<Sds>) {
    forall i, j :: 0 <= i < |original| && 0 <= j < |original[i].channels| ==> AddrIn(original[i].channels[j], upcoming)
  }

  lemma {:induction false} AllChannelsContain(user: seq<ChannelPerms>, x: Sds)
    ensures x in AllChannelsOf(user) <==> exists i :: 0 <= i < |user| && x in user[i].channels
  {
    if user != [] {
      var n := |user| - 1;
      AllChannelsContain(user[..n], x);
      if i :| 0 <= i < |user| && x in user[i].channels {
        assert i < n ==> user[..n][i] == user[i];
      }
    }
  }

  lemma GrantedByMember(m: Matching, channels: seq<Sds>, channel: string, isPattern: bool)
    ensures ListGrants(m, Texts(channels), channel, isPattern) <==>
            exists x :: x in channels && ListGrants(m, [x.text], channel, isPattern)
  {
    if ListGrants(m, Texts(channels), channel, isPattern) {
      var i :| 0 <= i < |channels| && if isPattern then Texts(channels)[i] == channel else m.glob(Texts(channels)[i], channel);
      assert channels[i] in channels && [channels[i].text][0] == Texts(channels)[i];
      assert ListGrants(m, [channels[i].text], channel, isPattern);
    }
    if x :| x in channels && ListGrants(m, [x.text], channel, isPattern) {
      var i :| 0 <= i < |channels| && channels[i] == x;
      assert Texts(channels)[i] == x.text;
    }
  }

  /** Without a selector that allows everything, the concatenated list decides. */
  lemma ListDecides(m: Matching, user: seq<ChannelPerms>, channel: string, isPattern: bool)
    requires !HasAll(user)
    ensures Permitted(m, user, channel, isPattern) <==> ListGrants(m, Texts(AllChannelsOf(user)), channel, isPattern)
  {
    GrantedByMember(m, AllChannelsOf(user), channel, isPattern);
    if Permitted(m, user, channel, isPattern) {
      var i :| 0 <= i < |user| && (user[i].all || ListGrants(m, Texts(user[i].channels), channel, isPattern));
      GrantedByMember(m, user[i].channels, channel, isPattern);
      var x :| x in user[i].channels && ListGrants(m, [x.text], channel, isPattern);
      AllChannelsContain(user, x);
    }
    if x :| x in AllChannelsOf(user) && ListGrants(m, [x.text], channel, isPattern) {
      AllChannelsContain(user, x);
      var i :| 0 <= i < |user| && x in user[i].channels;
      GrantedByMember(m, user[i].channels, channel, isPattern);
    }
  }

  /** The channel that grants a permission. */
  lemma Granting(m: Matching, user: seq<ChannelPerms>, channel: string, isPattern: bool) returns (i: nat, j: nat)
    requires !HasAll(user) && Permitted(m, user, channel, isPattern)
    ensures i < |user| && j < |user[i].channels| && ListGrants(m, [user[i].channels[j].text], channel, isPattern)
  {
    hide ListGrants, AllChannelsOf;
    i :| 0 <= i < |user| && (user[i].all || ListGrants(m, Texts(user[i].channels), channel, isPattern));
    GrantedByMember(m, user[i].channels, channel, isPattern);
    var x :| x in user[i].channels && ListGrants(m, [x.text], channel, isPattern);
    j :| 0 <= j < |user[i].channels| && user[i].channels[j] == x;
  }

  /** A channel kept by address is, as a text, in some selector of the changed user. */
  lemma KeptSomewhere(original: seq<ChannelPerms>, changed: seq<ChannelPerms>, i: nat, j: nat) returns (l: nat)
    requires Coherent(original, changed) && Kept(original, AllChannelsOf(changed))
    requires i < |original| && j < |original[i].channels|
    ensures l < |changed| && exists y :: y in changed[l].channels && y.text == original[i].channels[j].text
  {
    hide AllChannelsOf;
    var upcoming, x := AllChannelsOf(changed), original[i].channels[j];
    assert AddrIn(x, upcoming);
    var k :| 0 <= k < |upcoming| && upcoming[k].addr == x.addr;
    AllChannelsContain(changed, upcoming[k]);
    l :| 0 <= l < |changed| && upcoming[k] in changed[l].channels;
    var n :| 0 <= n < |changed[l].channels| && changed[l].channels[n] == upcoming[k];
    assert original[i] in original && changed[l] in changed;
  }

  /** Keeping every channel, by address, keeps every permission. */
  lemma KeptKeepsPermissions(
    m: Matching, original: seq<ChannelPerms>, changed: seq<ChannelPerms>, channel: string, isPattern: bool)
    requires Coherent(original, changed) && !HasAll(original) && Kept(original, AllChannelsOf(changed))
    requires Permitted(m, original, channel, isPattern)
    ensures Permitted(m, changed, channel, isPattern)
  {
    hide Coherent, Kept, AllChannelsOf, HasAll, ListGrants;
    var i, j := Granting(m, original, channel, isPattern);
    var l := KeptSomewhere(original, changed, i, j);
    GrantedByMember(m, changed[l].channels, channel, isPattern);
  }

  /** getUpcomingChannelList; None stands for NULL. */
  method UpcomingChannelList(changed: seq<ChannelPerms>, original: seq<ChannelPerms>) returns (r: Option<seq<Sds>>)
    ensures r.None? <==> HasAll(changed) || (!HasAll(original) && Kept(original, AllChannelsOf(changed)))
    ensures r.Some? ==> r.value == AllChannelsOf(changed)
  {
    for i := 0 to |changed|
      invariant forall k :: 0 <= k < i ==> !changed[k].all
    {
      if changed[i].all {
        return None;
      }
    }
    var upcoming := [];
    for i := 0 to |changed|
      invariant upcoming == AllChannelsOf(changed[..i])
    {
      assert changed[..i + 1][..i] == changed[..i];
      upcoming := upcoming + changed[i].channels;
    }
    assert changed[..|changed|] == changed;
    for i := 0 to |original|
      invariant forall k :: 0 <= k < i ==> !original[k].all
      invariant forall k, j :: 0 <= k < i && 0 <= j < |original[k].channels| ==> AddrIn(original[k].channels[j], upcoming)
    {
      var s := original[i];
      if s.all {
        return Some(upcoming);
      }
      for j := 0 to |s.channels|
        invariant forall l :: 0 <= l < j ==> AddrIn(s.channels[l], upcoming)
      {
        if !AddrIn(s.channels[j], upcoming) {
          return Some(upcoming);
        }
      }
    }
    return None;
  }

  /** The lists of a changed user are duplicates, at new addresses: then only a user without channels is "kept". */
  lemma DuplicatesAreNeverKept(original: seq<ChannelPerms>, changed: seq<ChannelPerms>)
    requires forall s, t, i, j :: s in original && t in changed && 0 <= i < |s.channels| && 0 <= j < |t.channels| ==>
               s.channels[i].addr != t.channels[j].addr
    ensures Kept(original, AllChannelsOf(changed)) <==> forall i :: 0 <= i < |original| ==> original[i].channels == []
  {
    if i :| 0 <= i < |original| && original[i].channels != [] {
      if AddrIn(original[i].channels[0], AllChannelsOf(changed)) {
        var k :| 0 <= k < |AllChannelsOf(changed)| && AllChannelsOf(changed)[k].addr == original[i].channels[0].addr;
        AllChannelsContain(changed, AllChannelsOf(changed)[k]);
        assert false;
      }
    }
  }

  // ---- clients ----

  class Client {
    var user: nat
    var closing: bool
    const isPubsub: bool
    const patterns: set<string>
    const channels: set<string>
    const shardChannels: set<string>

    constructor (user: nat, isPubsub: bool, patterns: set<string>, channels: set<string>, shardChannels: set<string>)
      ensures this.user == user && !closing && this.isPubsub == isPubsub && this.patterns == patterns
      ensures this.channels == channels && this.shardChannels == shardChannels
    {
      this.user, this.closing, this.isPubsub := user, false, isPubsub;
      this.patterns, this.channels, this.shardChannels := patterns, channels, shardChannels;
    }

    /** deauthenticateAndCloseClient: falls back to the default user and is closed later. */
    method DeauthenticateAndClose(defaultUser: nat)
      modifies this
      ensures user == defaultUser && closing
    {
      user, closing := defaultUser, true;
    }

    predicate NoSubscriptions() {
      patterns == {} && channels == {} && shardChannels == {}
    }

    /** Every subscription is permitted: patterns literally, channels and shard channels by matching. */
    ghost predicate AllPermitted(m: Matching, perms: seq<ChannelPerms>) {
      && (forall p :: p in patterns ==> Permitted(m, perms, p, true))
      && (forall c :: c in channels ==> Permitted(m, perms, c, false))
      && (forall c :: c in shardChannels ==> Permitted(m, perms, c, false))
    }

    ghost predicate AllGranted(m: Matching, list: seq<string>) {
      && (forall p :: p in patterns ==> ListGrants(m, list, p, true))
      && (forall c :: c in channels ==> ListGrants(m, list, c, false))
      && (forall c :: c in shardChannels ==> ListGrants(m, list, c, false))
    }
  }

  /** One of the three scans of ACLShouldKillPubsubClient. */
  method AnyDenied(m: Matching, list: seq<string>, names: set<string>, isPattern: bool) returns (denied: bool)
    ensures denied <==> exists x :: x in names && !ListGrants(m, list, x, isPattern)
  {
    var todo := names;
    while todo != {}
      invariant todo <= names && forall x :: x in names - todo ==> ListGrants(m, list, x, isPattern)
      decreases todo
    {
      var x :| x in todo;
      var code := CheckChannel(m, list, x, isPattern);
      if code == ACL_DENIED_CHANNEL {
        return true;
      }
      todo := todo - {x};
    }
    return false;
  }

  /** ACLShouldKillPubsubClient */
  method ShouldKill(m: Matching, c: Client, list: seq<string>) returns (kill: bool)
    ensures kill <==> c.isPubsub && !c.AllGranted(m, list)
  {
    kill := false;
    if c.isPubsub {
      kill := AnyDenied(m, list, c.patterns, true);
      if !kill {
        kill := AnyDenied(m, list, c.channels, false);
      }
      if !kill {
        kill := AnyDenied(m, list, c.shardChannels, false);
      }
    }
  }

  /**
   ACLKillPubsubClientsIfNeeded. If every subscription of the user's clients was permitted before, then exactly the
   clients of the user that hold a subscription the new rules deny are closed.
   */
  method KillPubsubClientsIfNeeded(
    m: Matching, clients: seq<Client>, user: nat, defaultUser: nat, totalSubscriptions: nat,
    changed: seq<ChannelPerms>, original: seq<ChannelPerms>)
    requires Coherent(original, changed)
    requires forall i, j :: 0 <= i < j < |clients| ==> clients[i] != clients[j]
    requires totalSubscriptions == 0 ==> forall c :: c in clients ==> c.NoSubscriptions()
    requires forall c :: c in clients && c.user == user && !c.isPubsub ==> c.NoSubscriptions()
    requires forall c :: c in clients && c.user == user ==> c.AllPermitted(m, original)
    modifies clients
    ensures forall c :: c in clients && old(c.user) == user ==>
              (c.closing <==> old(c.closing) || !c.AllPermitted(m, changed))
    ensures forall c :: c in clients && old(c.user) == user && !c.AllPermitted(m, changed) ==> c.user == defaultUser
    ensures forall c :: c in clients && (old(c.user) != user || c.AllPermitted(m, changed)) ==> unchanged(c)
  {
    hide Coherent, Kept, HasAll, AllChannelsOf, Permitted;
    if totalSubscriptions == 0 {
      forall c | c in clients && c.user == user ensures c.AllPermitted(m, changed) {
        NothingSubscribed(m, c, changed);
      }
      return;
    }
    var channels := UpcomingChannelList(changed, original);
    if channels.None? {
      forall c | c in clients && c.user == user ensures c.AllPermitted(m, changed) {
        NothingIsLost(m, c, changed, original);
      }
      return;
    }
    var list := Texts(channels.value);
    for i := 0 to |clients|
      invariant forall k :: i <= k < |clients| ==> unchanged(clients[k])
      invariant forall k :: 0 <= k < i && old(clients[k].user) == user ==>
                  (clients[k].closing <==> old(clients[k].closing) || !clients[k].AllPermitted(m, changed))
      invariant forall k :: 0 <= k < i && old(clients[k].user) == user && !clients[k].AllPermitted(m, changed) ==>
                  clients[k].user == defaultUser
      invariant forall k :: 0 <= k < i && (old(clients[k].user) != user || clients[k].AllPermitted(m, changed)) ==>
                  unchanged(clients[k])
    {
      var c := clients[i];
      if c.user == user {
        GrantedIsPermitted(m, c, changed);
        var kill := ShouldKill(m, c, list);
        if kill {
          c.DeauthenticateAndClose(defaultUser);
        }
      }
    }
  }

  lemma NothingSubscribed(m: Matching, c: Client, changed: seq<ChannelPerms>)
    requires c.NoSubscriptions()
    ensures c.AllPermitted(m, changed)
  {}

  lemma NothingIsLost(m: Matching, c: Client, changed: seq<ChannelPerms>, original: seq<ChannelPerms>)
    requires Coherent(original, changed) && c.AllPermitted(m, original)
    requires HasAll(changed) || (!HasAll(original) && Kept(original, AllChannelsOf(changed)))
    ensures c.AllPermitted(m, changed)
  {
    forall x, isPattern | Permitted(m, original, x, isPattern) ensures Permitted(m, changed, x, isPattern) {
      if HasAll(changed) {
        var i :| 0 <= i < |changed| && changed[i].all;
      } else {
        KeptKeepsPermissions(m, original, changed, x, isPattern);
      }
    }
  }

  lemma GrantedIsPermitted(m: Matching, c: Client, changed: seq<ChannelPerms>)
    requires !HasAll(changed)
    ensures c.AllGranted(m, Texts(AllChannelsOf(changed))) <==> c.AllPermitted(m, changed)
  {
    forall x, isPattern ensures Permitted(m, changed, x, isPattern) <==> ListGrants(m, Texts(AllChannelsOf(changed)), x, isPattern) {
      ListDecides(m, changed, x, isPattern);
    }
  }
}
