/**
 Blocking clients on keys and serving them again.

 Clients are records in a table. What the environment decides is a script: the outcome of the n-th re-executed
 command, and the type a key holds at that time.
 */
module Blocked {
  import opened BlockedIndex

  datatype Option<+T> = None | Some(value: T)

  datatype BType =
    NotBlocked | BList | BZset | BStream | BModule | BWait | BWaitAof | BPostpone | BPostponeTrim | BShutdown | BLazyFree

  /** The type of a key's value; BType has the three that built-in commands block on. */
  datatype Kind = KList | KZset | KStream | KModule | KOther

  datatype Client = Client(
    blocked: bool, btype: BType, keys: map<DbKey, nat>, unblockOnNokey: bool,
    pending: bool, reexecuting: bool, queued: bool, isModule: bool)

  datatype Signal = Signal(key: DbKey, kind: Kind, deleted: bool)

  /** What re-executing a blocked command does: it completes, making keys ready, or blocks again. */
  datatype Outcome =
    | Completes(signals: seq<Signal>)
    | BlocksAgain(btype: BType, keys: seq<DbKey>, unblockOnNokey: bool)

  predicate BlocksOnKeys(t: BType) {
    t == BList || t == BZset || t == BStream || t == BModule
  }

  predicate BuiltIn(t: BType) {
    t == BList || t == BZset || t == BStream
  }

  /** getBlockedTypeByType */
  function BlockedTypeOf(k: Kind): BType {
    match k case KList => BList case KZset => BZset case KStream => BStream case KModule => BModule case KOther => NotBlocked
  }

  type Clients = map<ClientId, Client>

  function Put(clients: Clients, c: ClientId, st: Client): Clients {
    clients[c := st]
  }

  lemma PutPut(clients: Clients, c: ClientId, st: Client, st': Client)
    ensures Put(Put(clients, c, st), c, st') == Put(clients, c, st')
    ensures c in Put(clients, c, st) && Put(clients, c, st)[c] == st
    ensures c in Put(clients, c, st') && Put(clients, c, st')[c] == st'
  {}

  lemma PutSame(clients: Clients, c: ClientId)
    requires c in clients
    ensures Put(clients, c, clients[c]) == clients
  {}

  function TablesOf(clients: Clients): Tables {
    map c | c in clients :: clients[c].keys
  }

  function FlaggedOf(clients: Clients): set<ClientId> {
    set c | c in clients && clients[c].unblockOnNokey
  }

  function BlockedIds(clients: Clients): set<ClientId> {
    set c | c in clients && clients[c].blocked
  }

  function RegularIds(clients: Clients): set<ClientId> {
    set c | c in clients && clients[c].blocked && !clients[c].isModule
  }

  function IdsOfType(clients: Clients, t: BType): set<ClientId> {
    set c | c in clients && clients[c].blocked && clients[c].btype == t
  }

  ghost predicate ClientOk(c: Client) {
    && (c.blocked <==> c.btype != NotBlocked)
    && (!c.blocked ==> c.keys == map[] && !c.unblockOnNokey)
    && (c.keys != map[] ==> BlocksOnKeys(c.btype))
    && (c.btype in {BList, BZset, BStream, BPostpone, BPostponeTrim} ==> c.pending)
  }

  ghost predicate ClientsOk(clients: Clients) {
    forall c :: c in clients ==> ClientOk(clients[c])
  }

  ghost predicate CountersOk(clients: Clients, total: int, byType: map<BType, int>) {
    && total == |RegularIds(clients)|
    && forall t :: t in byType && (t != NotBlocked ==> byType[t] == |IdsOfType(clients, t)|)
  }

  ghost predicate NodesOk(b: Blocking, nextNode: nat) {
    forall k, w :: w in WaitersOf(b, k) ==> w.node < nextNode
  }

  predicate NoDuplicates(keys: seq<DbKey>) {
    forall i, j :: 0 <= i < j < |keys| ==> keys[i] != keys[j]
  }

  /** The ready table holds exactly the keys still queued, each queued once. */
  ghost predicate ReadyOk(table: set<DbKey>, queued: seq<DbKey>) {
    NoDuplicates(queued) && forall k :: k in table <==> k in queued
  }

  /** The clients to reprocess are queued once, exactly when flagged. */
  ghost predicate QueueOk(clients: Clients, unblocked: seq<ClientId>) {
    && (forall i, j :: 0 <= i < j < |unblocked| ==> unblocked[i] != unblocked[j])
    && (forall c :: c in clients ==> (clients[c].queued <==> c in unblocked))
    && (forall c :: c in unblocked ==> c in clients)
  }

  /** The waiters other than client `c`. */
  function Without(ws: seq<Waiter>, c: ClientId): seq<Waiter> {
    if ws == [] then [] else (if ws[0].client == c then [] else [ws[0]]) + Without(ws[1..], c)
  }

  lemma {:induction false} WithoutConcat(a: seq<Waiter>, b: seq<Waiter>, c: ClientId)
    ensures Without(a + b, c) == Without(a, c) + Without(b, c)
  {
    if a == [] {
      assert a + b == b;
    } else {
      var head := if a[0].client == c then [] else [a[0]];
      WithoutConcat(a[1..], b, c);
      assert (a + b)[1..] == a[1..] + b;
      assert Without(a + b, c) == head + Without(a[1..] + b, c);
      assert head + (Without(a[1..], c) + Without(b, c)) == head + Without(a[1..], c) + Without(b, c);
    }
  }

  lemma {:induction false} WithoutAbsent(ws: seq<Waiter>, c: ClientId)
    requires forall w :: w in ws ==> w.client != c
    ensures Without(ws, c) == ws
  {
    if ws != [] {
      assert ws[0] in ws;
      assert forall w :: w in ws[1..] ==> w in ws;
      WithoutAbsent(ws[1..], c);
    }
  }

  lemma OthersDiffer(ws: seq<Waiter>, i: nat)
    requires i < |ws| && ListOk(ws)
    ensures forall w :: w in ws[..i] || w in ws[i + 1..] ==> w.client != ws[i].client
  {
    forall w | w in ws[..i] || w in ws[i + 1..] ensures w.client != ws[i].client {
      var j :| 0 <= j < |ws| && j != i && ws[j] == w;
    }
  }

  /** Only the waiter in the middle is of client `c`. */
  lemma WithoutMiddle(front: seq<Waiter>, x: Waiter, back: seq<Waiter>)
    requires forall w :: w in front || w in back ==> w.client != x.client
    ensures Without(front + ([x] + back), x.client) == front + back
  {
    WithoutOnly(x);
    hide Without;
    WithoutAbsent(front, x.client);
    WithoutAbsent(back, x.client);
    WithoutConcat([x], back, x.client);
    WithoutConcat(front, [x] + back, x.client);
    assert [] + back == back;
  }

  lemma WithoutOnly(x: Waiter)
    ensures Without([x], x.client) == []
  {}

  lemma Around(ws: seq<Waiter>, i: nat)
    requires i < |ws|
    ensures ws == ws[..i] + ([ws[i]] + ws[i + 1..])
  {}

  lemma WithoutIsRemoved(ws: seq<Waiter>, i: nat)
    requires i < |ws| && ListOk(ws)
    ensures Without(ws, ws[i].client) == Removed(ws, i)
  {
    hide ListOk, Without;
    OthersDiffer(ws, i);
    WithoutMiddle(ws[..i], ws[i], ws[i + 1..]);
    Around(ws, i);
  }

  lemma TablesAfter(clients: Clients, c: ClientId, st: Client)
    requires c in clients
    ensures TablesOf(Put(clients, c, st)) == TablesOf(clients)[c := st.keys]
    ensures FlaggedOf(Put(clients, c, st)) == if st.unblockOnNokey then FlaggedOf(clients) + {c} else FlaggedOf(clients) - {c}
  {}

  /** The sets that are counted, after client `c` became `st`. */
  lemma IdsAfter(clients: Clients, c: ClientId, st: Client)
    requires c in clients
    ensures BlockedIds(Put(clients, c, st)) == if st.blocked then BlockedIds(clients) + {c} else BlockedIds(clients) - {c}
    ensures c in BlockedIds(clients) <==> clients[c].blocked
  {}

  lemma RegularAfter(clients: Clients, c: ClientId, st: Client)
    requires c in clients
    ensures RegularIds(Put(clients, c, st)) ==
            if st.blocked && !st.isModule then RegularIds(clients) + {c} else RegularIds(clients) - {c}
    ensures c in RegularIds(clients) <==> clients[c].blocked && !clients[c].isModule
  {}

  lemma OfTypeAfter(clients: Clients, c: ClientId, st: Client, t: BType)
    requires c in clients
    ensures IdsOfType(Put(clients, c, st), t) ==
            if st.blocked && st.btype == t then IdsOfType(clients, t) + {c} else IdsOfType(clients, t) - {c}
    ensures c in IdsOfType(clients, t) <==> clients[c].blocked && clients[c].btype == t
  {}

  lemma AllAfter(clients: Clients, c: ClientId, st: Client)
    requires c in clients
    ensures BlockedIds(Put(clients, c, st)) == if st.blocked then BlockedIds(clients) + {c} else BlockedIds(clients) - {c}
    ensures c in BlockedIds(clients) <==> clients[c].blocked
    ensures RegularIds(Put(clients, c, st)) ==
            if st.blocked && !st.isModule then RegularIds(clients) + {c} else RegularIds(clients) - {c}
    ensures c in RegularIds(clients) <==> clients[c].blocked && !clients[c].isModule
    ensures forall t :: IdsOfType(Put(clients, c, st), t) ==
              if st.blocked && st.btype == t then IdsOfType(clients, t) + {c} else IdsOfType(clients, t) - {c}
    ensures forall t :: c in IdsOfType(clients, t) <==> clients[c].blocked && clients[c].btype == t
  {
    hide *;
    IdsAfter(clients, c, st);
    RegularAfter(clients, c, st);
    forall t
      ensures IdsOfType(Put(clients, c, st), t) ==
              if st.blocked && st.btype == t then IdsOfType(clients, t) + {c} else IdsOfType(clients, t) - {c}
      ensures c in IdsOfType(clients, t) <==> clients[c].blocked && clients[c].btype == t
    {
      OfTypeAfter(clients, c, st, t);
    }
  }

  lemma SameTables(clients: Clients, c: ClientId, st: Client)
    requires c in clients && st.keys == clients[c].keys && st.unblockOnNokey == clients[c].unblockOnNokey
    ensures TablesOf(Put(clients, c, st)) == TablesOf(clients) && FlaggedOf(Put(clients, c, st)) == FlaggedOf(clients)
  {}

  lemma TablesBeforeAdd(clients: Clients, c: ClientId, k: DbKey, n: nat)
    requires c in clients
    ensures c in TablesOf(clients) && TablesOf(clients)[c] == clients[c].keys
    ensures TablesOf(Put(clients, c, clients[c].(keys := AddKey(clients[c].keys, k, n)))) ==
            TablesOf(clients)[c := AddKey(clients[c].keys, k, n)]
  {
    TablesAfter(clients, c, clients[c].(keys := AddKey(clients[c].keys, k, n)));
  }

  lemma CountersSame(clients: Clients, c: ClientId, st: Client, total: int, byType: map<BType, int>)
    requires c in clients && CountersOk(clients, total, byType)
    requires st.blocked == clients[c].blocked && st.btype == clients[c].btype && st.isModule == clients[c].isModule
    ensures CountersOk(Put(clients, c, st), total, byType)
    ensures BlockedIds(Put(clients, c, st)) == BlockedIds(clients)
  {
    hide Put, BlockedIds, RegularIds, IdsOfType;
    AllAfter(clients, c, st);
    assert RegularIds(Put(clients, c, st)) == RegularIds(clients);
    assert forall t :: IdsOfType(Put(clients, c, st), t) == IdsOfType(clients, t);
  }

  lemma CountersUp(clients: Clients, c: ClientId, st: Client, total: int, byType: map<BType, int>)
    requires c in clients && CountersOk(clients, total, byType) && !clients[c].blocked
    requires st.blocked && st.btype != NotBlocked && st.isModule == clients[c].isModule
    ensures CountersOk(Put(clients, c, st), if st.isModule then total else total + 1, byType[st.btype := byType[st.btype] + 1])
    ensures BlockedIds(Put(clients, c, st)) == BlockedIds(clients) + {c}
  {
    hide Put, BlockedIds, RegularIds, IdsOfType;
    AllAfter(clients, c, st);
    assert forall t :: t != st.btype ==> IdsOfType(Put(clients, c, st), t) == IdsOfType(clients, t);
  }

  lemma CountersDown(clients: Clients, c: ClientId, st: Client, total: int, byType: map<BType, int>)
    requires c in clients && CountersOk(clients, total, byType) && clients[c].blocked && clients[c].btype != NotBlocked
    requires !st.blocked && st.isModule == clients[c].isModule
    ensures var t := clients[c].btype;
            CountersOk(Put(clients, c, st), if st.isModule then total else total - 1, byType[t := byType[t] - 1])
    ensures BlockedIds(Put(clients, c, st)) == BlockedIds(clients) - {c}
  {
    hide Put, BlockedIds, RegularIds, IdsOfType;
    AllAfter(clients, c, st);
    assert forall t :: t != clients[c].btype ==> IdsOfType(Put(clients, c, st), t) == IdsOfType(clients, t);
  }

  lemma AppendKeepsNodes(b: Blocking, k: DbKey, w: Waiter)
    requires NodesOk(b, w.node)
    ensures NodesOk(AppendWaiter(b, k, w), w.node + 1)
    ensures forall v :: v in WaitersOf(b, k) ==> v.node != w.node
    ensures AppendWaiter(b, k, w) == if k in b then b[k := b[k] + [w]] else b[k := [w]]
  {
    var b' := AppendWaiter(b, k, w);
    assert WaitersOf(b', k) == WaitersOf(b, k) + [w];
    assert forall m :: m != k ==> WaitersOf(b', m) == WaitersOf(b, m);
    assert k !in b ==> [] + [w] == [w];
  }

  /** The index, the deletion counts and the node numbers, for the given tables and flagged clients. */
  ghost predicate Linked(b: Blocking, t: Tables, nokey: map<DbKey, nat>, flagged: set<ClientId>, nextNode: nat) {
    IndexOk(b, t) && NokeyOk(b, nokey, flagged) && NodesOk(b, nextNode)
  }

  lemma AppendKeepsLinked(
    b: Blocking, t: Tables, nokey: map<DbKey, nat>, flagged: set<ClientId>, nextNode: nat, k: DbKey, c: ClientId)
    requires Linked(b, t, nokey, flagged, nextNode) && c in t && k !in t[c]
    ensures Linked(AppendWaiter(b, k, Waiter(nextNode, c)), t[c := AddKey(t[c], k, nextNode)],
                   if c in flagged then nokey[k := NokeyOf(nokey, k) + 1] else nokey, flagged, nextNode + 1)
  {
    var w := Waiter(nextNode, c);
    hide ListsOk, Backed, Listed, NokeyOk, NodesOk, AppendWaiter;
    AppendKeepsNodes(b, k, w);
    AppendKeepsIndex(b, t, k, w);
    AppendKeepsNokey(b, nokey, flagged, k, w);
  }

  function KeySet(keys: seq<DbKey>): set<DbKey> {
    set k | k in keys
  }

  /** Client `c` was appended to the list of each of `keys`, at a new node; the other lists are as they were. */
  ghost predicate Gained(b: Blocking, b': Blocking, keys: set<DbKey>, c: ClientId, nextNode: nat) {
    forall k :: if k in keys then GainedAt(b, b', k, c, nextNode) else WaitersOf(b', k) == WaitersOf(b, k)
  }

  ghost predicate GainedAt(b: Blocking, b': Blocking, k: DbKey, c: ClientId, nextNode: nat) {
    exists n :: n >= nextNode && WaitersOf(b', k) == WaitersOf(b, k) + [Waiter(n, c)]
  }

  lemma GainsOneMore(b: Blocking, b1: Blocking, keys: set<DbKey>, c: ClientId, nextNode: nat, k: DbKey, n: nat)
    requires Gained(b, b1, keys, c, nextNode) && k !in keys && n >= nextNode
    ensures Gained(b, AppendWaiter(b1, k, Waiter(n, c)), keys + {k}, c, nextNode)
  {
    var b2 := AppendWaiter(b1, k, Waiter(n, c));
    assert forall m :: m != k ==> WaitersOf(b2, m) == WaitersOf(b1, m);
    forall m ensures if m in keys + {k} then GainedAt(b, b2, m, c, nextNode) else WaitersOf(b2, m) == WaitersOf(b, m) {
      if m in keys {
        assert GainedAt(b, b1, m, c, nextNode);
      } else if m == k {
        assert WaitersOf(b1, k) == WaitersOf(b, k);
      }
    }
  }

  /** An idle client may change its deletion flag. */
  lemma FlagKeepsLinked(b: Blocking, clients: Clients, nokey: map<DbKey, nat>, nextNode: nat, c: ClientId, flag: bool)
    requires Linked(b, TablesOf(clients), nokey, FlaggedOf(clients), nextNode) && c in clients && clients[c].keys == map[]
    ensures Linked(b, TablesOf(clients), nokey,
                   if flag then FlaggedOf(clients) + {c} else FlaggedOf(clients) - {c}, nextNode)
  {
    FlagOfIdleClient(b, TablesOf(clients), nokey, FlaggedOf(clients), c);
  }

  lemma BlockedClientStaysOk(clients: Clients, c: ClientId, st: Client)
    requires ClientsOk(clients) && ClientOk(st)
    ensures ClientsOk(Put(clients, c, st))
  {}

  lemma QueueUntouched(clients: Clients, unblocked: seq<ClientId>, c: ClientId, st: Client)
    requires QueueOk(clients, unblocked) && c in clients && st.queued == clients[c].queued
    ensures QueueOk(Put(clients, c, st), unblocked)
  {}

  /** Client `c` is gone from the lists of `keys`; the other lists are as they were. */
  ghost predicate Lost(b: Blocking, b': Blocking, keys: set<DbKey>, c: ClientId) {
    forall k :: WaitersOf(b', k) == if k in keys then Without(WaitersOf(b, k), c) else WaitersOf(b, k)
  }

  ghost predicate LostEverywhere(b: Blocking, b': Blocking, c: ClientId) {
    forall k :: WaitersOf(b', k) == Without(WaitersOf(b, k), c)
  }

  /** The deletion counts after the waiter at `i` is unlinked from the list of `k`. */
  function NokeyAfterRemove(b: Blocking, nokey: map<DbKey, nat>, flag: bool, k: DbKey): map<DbKey, nat>
    requires k in b && (flag ==> k in nokey && nokey[k] > 0)
  {
    if |b[k]| == 1 then nokey - {k}
    else if !flag then nokey
    else if nokey[k] == 1 then nokey - {k}
    else nokey[k := nokey[k] - 1]
  }

  lemma RemoveKeepsLinked(
    b: Blocking, t: Tables, nokey: map<DbKey, nat>, flagged: set<ClientId>, nextNode: nat, k: DbKey, i: nat)
    requires Linked(b, t, nokey, flagged, nextNode) && k in b && i < |b[k]|
    ensures var c := b[k][i].client;
            && c in t && (c in flagged ==> k in nokey && nokey[k] > 0)
            && Linked(RemoveAt(b, k, i), t[c := t[c] - {k}], NokeyAfterRemove(b, nokey, c in flagged, k), flagged, nextNode)
            && Lost(b, RemoveAt(b, k, i), {k}, c)
  {
    RemoveLosesOne(b, k, i) by { assert ListsOk(b); }
    RemoveKeepsNodes(b, k, i, nextNode);
    hide ListsOk, Backed, Listed, NokeyOk, NodesOk, Lost, RemoveAt;
    RemoveKeepsIndex(b, t, k, i);
    RemoveKeepsNokey(b, nokey, flagged, k, i);
  }

  lemma RemoveLosesOne(b: Blocking, k: DbKey, i: nat)
    requires k in b && i < |b[k]| && ListsOk(b)
    ensures Lost(b, RemoveAt(b, k, i), {k}, b[k][i].client)
  {
    WithoutIsRemoved(b[k], i);
    assert WaitersOf(RemoveAt(b, k, i), k) == Removed(b[k], i);
  }

  lemma RemoveKeepsNodes(b: Blocking, k: DbKey, i: nat, nextNode: nat)
    requires k in b && i < |b[k]| && NodesOk(b, nextNode)
    ensures NodesOk(RemoveAt(b, k, i), nextNode)
  {
    var b' := RemoveAt(b, k, i);
    assert WaitersOf(b', k) == Removed(b[k], i);
    assert forall w :: w in Removed(b[k], i) ==> w in WaitersOf(b, k);
    assert forall m :: m != k ==> WaitersOf(b', m) == WaitersOf(b, m);
  }

  /** Where a key in a client's table points to. */
  lemma NodeIsLinked(
    b: Blocking, t: Tables, nokey: map<DbKey, nat>, flagged: set<ClientId>, nextNode: nat, k: DbKey, c: ClientId)
    requires Linked(b, t, nokey, flagged, nextNode) && c in t && k in t[c]
    ensures k in b && Waiter(t[c][k], c) in b[k] && ListOk(b[k])
  {
    assert Waiter(t[c][k], c) in WaitersOf(b, k);
  }

  lemma LosesOneMore(b: Blocking, b1: Blocking, b2: Blocking, keys: set<DbKey>, c: ClientId, k: DbKey)
    requires Lost(b, b1, keys, c) && Lost(b1, b2, {k}, c) && k !in keys
    ensures Lost(b, b2, keys + {k}, c)
  {
    forall m ensures WaitersOf(b2, m) == if m in keys + {k} then Without(WaitersOf(b, m), c) else WaitersOf(b, m) {
      assert WaitersOf(b2, m) == if m in {k} then Without(WaitersOf(b1, m), c) else WaitersOf(b1, m);
      assert WaitersOf(b1, m) == if m in keys then Without(WaitersOf(b, m), c) else WaitersOf(b, m);
    }
  }

  lemma LostFromTable(
    b: Blocking, b': Blocking, t: Tables, nokey: map<DbKey, nat>, flagged: set<ClientId>, nextNode: nat, c: ClientId)
    requires Linked(b, t, nokey, flagged, nextNode) && c in t && Lost(b, b', t[c].Keys, c)
    ensures LostEverywhere(b, b', c)
  {
    forall k ensures WaitersOf(b', k) == Without(WaitersOf(b, k), c) {
      if k !in t[c] {
        assert forall w :: w in WaitersOf(b, k) ==> w.client != c;
        WithoutAbsent(WaitersOf(b, k), c);
      }
    }
  }

  /** A client that no longer waits: what unblockClient leaves of it. */
  function Freed(st: Client, queue: bool): Client {
    st.(blocked := false, btype := NotBlocked, keys := map[], unblockOnNokey := false, queued := st.queued || queue)
  }

  lemma FreedSets(clients: Clients, c: ClientId, queue: bool)
    requires c in clients
    ensures var idle, after := Put(clients, c, clients[c].(keys := map[])), Put(clients, c, Freed(clients[c], queue));
            && TablesOf(after) == TablesOf(idle) && FlaggedOf(after) == FlaggedOf(idle) - {c}
            && c in idle && idle[c].keys == map[]
  {
    var idle, after := Put(clients, c, clients[c].(keys := map[])), Put(clients, c, Freed(clients[c], queue));
    assert TablesOf(after) == TablesOf(idle);
  }

  lemma FreedKeepsLinked(b: Blocking, clients: Clients, nokey: map<DbKey, nat>, nextNode: nat, c: ClientId, queue: bool)
    requires c in clients
    requires var idle := Put(clients, c, clients[c].(keys := map[]));
             Linked(b, TablesOf(idle), nokey, FlaggedOf(idle), nextNode)
    ensures var after := Put(clients, c, Freed(clients[c], queue));
            Linked(b, TablesOf(after), nokey, FlaggedOf(after), nextNode)
  {
    hide *;
    FreedSets(clients, c, queue);
    FlagKeepsLinked(b, Put(clients, c, clients[c].(keys := map[])), nokey, nextNode, c, false);
  }

  lemma QueueGrows(clients: Clients, unblocked: seq<ClientId>, c: ClientId, st: Client)
    requires QueueOk(clients, unblocked) && c in clients && (clients[c].queued ==> st.queued)
    ensures QueueOk(Put(clients, c, st), if st.queued && !clients[c].queued then unblocked + [c] else unblocked)
  {}

  /** The tables, with `done` taken out of the table of `c`. */
  function Narrow(t: Tables, c: ClientId, done: set<DbKey>): Tables
    requires c in t
  {
    t[c := t[c] - done]
  }

  lemma NarrowSteps(t: Tables, c: ClientId)
    requires c in t
    ensures Narrow(t, c, {}) == t
    ensures forall done :: c in Narrow(t, c, done) && Narrow(t, c, done)[c] == t[c] - done
    ensures Narrow(t, c, t[c].Keys) == t[c := map[]]
  {
    assert t[c] - {} == t[c];
    assert t[c] - t[c].Keys == map[];
  }

  lemma NarrowMore(t: Tables, c: ClientId, done: set<DbKey>, k: DbKey)
    requires c in t
    ensures c in Narrow(t, c, done)
    ensures Narrow(t, c, done)[c := Narrow(t, c, done)[c] - {k}] == Narrow(t, c, done + {k})
    ensures k in t[c] && k !in done ==> k in Narrow(t, c, done)[c] && Narrow(t, c, done)[c][k] == t[c][k]
  {
    assert t[c] - done - {k} == t[c] - (done + {k});
  }

  lemma InTables(clients: Clients, c: ClientId)
    requires c in clients
    ensures c in TablesOf(clients) && TablesOf(clients)[c] == clients[c].keys
    ensures clients[c].unblockOnNokey <==> c in FlaggedOf(clients)
  {}

  lemma WaitsNowhere(st: Client)
    requires ClientOk(st) && !BlocksOnKeys(st.btype)
    ensures st.keys == map[] && st.(keys := map[]) == st
  {}

  lemma IdleTables(clients: Clients, c: ClientId)
    requires c in clients
    ensures var idle := Put(clients, c, clients[c].(keys := map[]));
            TablesOf(idle) == TablesOf(clients)[c := map[]] && FlaggedOf(idle) == FlaggedOf(clients)
  {}

  /** A client without keys waits on no list. */
  lemma NoKeysNothingLost(b: Blocking, clients: Clients, nokey: map<DbKey, nat>, nextNode: nat, c: ClientId)
    requires Linked(b, TablesOf(clients), nokey, FlaggedOf(clients), nextNode) && c in clients && clients[c].keys == map[]
    ensures LostEverywhere(b, b, c)
  {
    LosesOnEmpty(b, c);
    LostFromTable(b, b, TablesOf(clients), nokey, FlaggedOf(clients), nextNode, c);
  }

  lemma LosesOnEmpty(b: Blocking, c: ClientId)
    ensures Lost(b, b, {}, c)
  {}

  /** Both sides of the index, the deletion counts, the counters and the reprocessing queue agree. */
  ghost predicate ValidState(
    clients: Clients, b: Blocking, nokey: map<DbKey, nat>, nextNode: nat,
    total: int, byType: map<BType, int>, unblocked: seq<ClientId>)
  {
    && Linked(b, TablesOf(clients), nokey, FlaggedOf(clients), nextNode)
    && ClientsOk(clients)
    && CountersOk(clients, total, byType)
    && QueueOk(clients, unblocked)
  }

  lemma ValidParts(
    clients: Clients, b: Blocking, nokey: map<DbKey, nat>, nextNode: nat,
    total: int, byType: map<BType, int>, unblocked: seq<ClientId>)
    requires ValidState(clients, b, nokey, nextNode, total, byType, unblocked)
    ensures Linked(b, TablesOf(clients), nokey, FlaggedOf(clients), nextNode) && ClientsOk(clients)
    ensures CountersOk(clients, total, byType) && QueueOk(clients, unblocked)
  {}

  lemma IsOk(clients: Clients, c: ClientId)
    requires ClientsOk(clients) && c in clients
    ensures ClientOk(clients[c])
  {}

  /** A client with a key in its table is blocked. */
  lemma BlockedIfWaiting(
    clients: Clients, b: Blocking, nokey: map<DbKey, nat>, nextNode: nat,
    total: int, byType: map<BType, int>, unblocked: seq<ClientId>, c: ClientId, k: DbKey)
    requires ValidState(clients, b, nokey, nextNode, total, byType, unblocked) && c in clients && k in clients[c].keys
    ensures clients[c].blocked && c in BlockedIds(clients) && BlocksOnKeys(clients[c].btype)
    ensures clients[c].btype in {BList, BZset, BStream} ==> clients[c].pending
  {
    IsOk(clients, c);
  }

  lemma BuiltInTypes(t: BType)
    ensures BuiltIn(t) <==> t in {BList, BZset, BStream}
  {}

  /** A client with a key in its table is among the waiters of the key. */
  lemma IsWaiting(
    clients: Clients, b: Blocking, nokey: map<DbKey, nat>, nextNode: nat,
    total: int, byType: map<BType, int>, unblocked: seq<ClientId>, c: ClientId, k: DbKey)
    requires ValidState(clients, b, nokey, nextNode, total, byType, unblocked) && c in clients && k in clients[c].keys
    ensures exists w :: w in WaitersOf(b, k) && w.client == c
  {
    hide ClientsOk, CountersOk, QueueOk;
    assert c in TablesOf(clients) && TablesOf(clients)[c] == clients[c].keys;
    ListedWaiter(b, TablesOf(clients), c, k);
  }

  lemma ListedWaiter(b: Blocking, t: Tables, c: ClientId, k: DbKey)
    requires IndexOk(b, t) && c in t && k in t[c]
    ensures exists w :: w in WaitersOf(b, k) && w.client == c
  {
    var w := Waiter(t[c][k], c);
    assert w in WaitersOf(b, k) && w.client == c;
  }

  /** What unblockClient leaves behind, once the client is out of the index, is in order. */
  lemma FreedIsValid(
    clients: Clients, c: ClientId, queue: bool, total: int, byType: map<BType, int>, unblocked: seq<ClientId>,
    b: Blocking, nokey: map<DbKey, nat>, nextNode: nat)
    requires c in clients && clients[c].blocked && ClientsOk(clients) && CountersOk(clients, total, byType)
    requires QueueOk(clients, unblocked)
    requires var idle := Put(clients, c, clients[c].(keys := map[]));
             Linked(b, TablesOf(idle), nokey, FlaggedOf(idle), nextNode)
    ensures var st, after := clients[c], Put(clients, c, Freed(clients[c], queue));
            && st.btype in byType && BlockedIds(after) == BlockedIds(clients) - {c}
            && ValidState(after, b, nokey, nextNode, if st.isModule then total else total - 1,
                          byType[st.btype := byType[st.btype] - 1],
                          if queue && !st.queued then unblocked + [c] else unblocked)
  {
    var st := clients[c];
    assert ClientOk(st);
    CountersDown(clients, c, Freed(st, queue), total, byType);
    hide CountersOk, Linked, TablesOf, FlaggedOf;
    QueueGrows(clients, unblocked, c, Freed(st, queue));
    BlockedClientStaysOk(clients, c, Freed(st, queue));
    FreedKeepsLinked(b, clients, nokey, nextNode, c, queue);
  }

  /** Freeing a client in the steps of unblockClient. */
  lemma FreedInSteps(clients: Clients, c: ClientId)
    requires c in clients
    ensures var st := clients[c];
            && Put(Put(clients, c, st.(keys := map[])), c, Freed(st, false)) == Put(clients, c, Freed(st, false))
            && c in Put(clients, c, Freed(st, false)) && Put(clients, c, Freed(st, false))[c] == Freed(st, false)
            && Put(Put(clients, c, Freed(st, false)), c, Freed(st, false).(queued := true)) == Put(clients, c, Freed(st, true))
  {
    PutPut(clients, c, clients[c].(keys := map[]), Freed(clients[c], false));
    PutPut(clients, c, Freed(clients[c], false), Freed(clients[c], true));
  }

  /** A client that blockForKeys has entered in the index under `row`. */
  function BlockedOn(st: Client, btype: BType, row: map<DbKey, nat>, flag: bool): Client {
    st.(blocked := true, btype := btype, keys := row, unblockOnNokey := flag, pending := st.pending || btype != BModule)
  }

  lemma BlockedIsValid(
    clients: Clients, c: ClientId, btype: BType, row: map<DbKey, nat>, flag: bool,
    total: int, byType: map<BType, int>, unblocked: seq<ClientId>, b: Blocking, nokey: map<DbKey, nat>, nextNode: nat)
    requires c in clients && !clients[c].blocked && BlocksOnKeys(btype)
    requires ClientsOk(clients) && CountersOk(clients, total, byType) && QueueOk(clients, unblocked)
    requires Linked(b, TablesOf(Put(clients, c, clients[c].(keys := row))), nokey,
                    if flag then FlaggedOf(clients) + {c} else FlaggedOf(clients) - {c}, nextNode)
    ensures var st, after := clients[c], Put(clients, c, BlockedOn(clients[c], btype, row, flag));
            && btype in byType && BlockedIds(after) == BlockedIds(clients) + {c}
            && ValidState(after, b, nokey, nextNode, if st.isModule then total else total + 1,
                          byType[btype := byType[btype] + 1], unblocked)
  {
    var st := BlockedOn(clients[c], btype, row, flag);
    CountersUp(clients, c, st, total, byType);
    TablesAfter(clients, c, clients[c].(keys := row));
    TablesAfter(clients, c, st);
    hide CountersOk, Linked, TablesOf, FlaggedOf;
    QueueUntouched(clients, unblocked, c, st);
    BlockedClientStaysOk(clients, c, st);
  }

  /** Blocking a client in the steps of blockForKeys. */
  lemma BlockedInSteps(clients: Clients, c: ClientId, btype: BType, row: map<DbKey, nat>, flag: bool)
    requires c in clients
    ensures var st, last := clients[c], BlockedOn(clients[c], btype, row, flag);
            var mid := last.(blocked := st.blocked, btype := st.btype);
            && c in Put(clients, c, st.(keys := row)) && Put(clients, c, st.(keys := row))[c] == st.(keys := row)
            && Put(Put(clients, c, st.(keys := row)), c, mid) == Put(clients, c, mid)
            && c in Put(clients, c, mid) && Put(clients, c, mid)[c] == mid
            && Put(Put(clients, c, mid), c, last) == Put(clients, c, last)
            && c in Put(clients, c, last) && Put(clients, c, last)[c] == last
  {
    var st, last := clients[c], BlockedOn(clients[c], btype, row, flag);
    var mid := last.(blocked := st.blocked, btype := st.btype);
    PutPut(clients, c, st.(keys := row), mid);
    PutPut(clients, c, mid, last);
    PutPut(clients, c, last, last);
  }

  /** A client that is blocked without waiting for a key. A postponed one will run its command later. */
  function PostponedOn(st: Client, btype: BType): Client {
    st.(blocked := true, btype := btype, pending := st.pending || btype == BPostpone || btype == BPostponeTrim)
  }

  lemma PostponedIsValid(
    clients: Clients, c: ClientId, btype: BType,
    total: int, byType: map<BType, int>, unblocked: seq<ClientId>, b: Blocking, nokey: map<DbKey, nat>, nextNode: nat)
    requires ValidState(clients, b, nokey, nextNode, total, byType, unblocked)
    requires c in clients && !clients[c].blocked && btype != NotBlocked && !BuiltIn(btype)
    ensures var st, after := clients[c], Put(clients, c, PostponedOn(clients[c], btype));
            && btype in byType && BlockedIds(after) == BlockedIds(clients) + {c}
            && ValidState(after, b, nokey, nextNode, if st.isModule then total else total + 1,
                          byType[btype := byType[btype] + 1], unblocked)
  {
    var st := PostponedOn(clients[c], btype);
    assert ClientOk(clients[c]);
    CountersUp(clients, c, st, total, byType);
    hide CountersOk, Linked, TablesOf, FlaggedOf;
    QueueUntouched(clients, unblocked, c, st);
    BlockedClientStaysOk(clients, c, st);
    SameTables(clients, c, st);
  }

  lemma PostponedInSteps(clients: Clients, c: ClientId, btype: BType)
    requires c in clients
    ensures var mid, last := clients[c].(blocked := true, btype := btype), PostponedOn(clients[c], btype);
            && c in Put(clients, c, mid) && Put(clients, c, mid)[c] == mid
            && Put(Put(clients, c, mid), c, last) == Put(clients, c, last)
            && c in Put(clients, c, last) && Put(clients, c, last)[c] == last
  {
    PutPut(clients, c, clients[c].(blocked := true, btype := btype), PostponedOn(clients[c], btype));
    PutPut(clients, c, PostponedOn(clients[c], btype), PostponedOn(clients[c], btype));
  }

  // ---- making keys ready ----

  /** The test of handleClientsBlockedOnKey: is this receiver to be served, now that the key holds `kind`? */
  predicate ToServe(st: Client, kind: Option<Kind>) {
    || (kind.Some? && st.btype == BlockedTypeOf(kind.value))
    || (kind.Some? && st.btype == BModule)
    || st.unblockOnNokey
  }

  /** What the serving loop finds under a key right after the signal: a deleted key is not there. */
  function FoundAfter(kind: Kind, deleted: bool): Option<Kind> {
    if deleted then None else Some(kind)
  }

  /** Some waiter of `k` is to be served after this signal. */
  ghost predicate SomeToServe(clients: Clients, b: Blocking, k: DbKey, kind: Kind, deleted: bool) {
    exists w :: w in WaitersOf(b, k) && w.client in clients && ToServe(clients[w.client], FoundAfter(kind, deleted))
  }

  /** Some client is blocked, on whatever key, as those are that wait for this kind of value, or as modules are. */
  ghost predicate TypeAwaited(clients: Clients, kind: Kind) {
    && BlockedTypeOf(kind) != NotBlocked
    && exists c :: c in clients && clients[c].blocked && clients[c].btype in {BlockedTypeOf(kind), BModule}
  }

  /** Some client waits for `k`, and for its deletion if that is what is signalled. */
  ghost predicate KeyAwaited(clients: Clients, b: Blocking, k: DbKey, deleted: bool) {
    exists w :: w in WaitersOf(b, k) && w.client in clients && (deleted ==> clients[w.client].unblockOnNokey)
  }

  /** The quick returns of signalKeyAsReadyLogic. */
  predicate ReturnsQuickly(byType: map<BType, int>, b: Blocking, nokey: map<DbKey, nat>, k: DbKey, kind: Kind, deleted: bool)
    requires BlockedTypeOf(kind) in byType && BModule in byType
  {
    || BlockedTypeOf(kind) == NotBlocked
    || (byType[BlockedTypeOf(kind)] == 0 && byType[BModule] == 0)
    || (if deleted then k !in nokey else k !in b)
  }

  lemma {:induction false} CountedWaiter(ws: seq<Waiter>, flagged: set<ClientId>, w: Waiter)
    requires w in ws && w.client in flagged
    ensures Count(ws, flagged) > 0
  {
    if ws[0] != w {
      assert w in ws[1..];
      CountedWaiter(ws[1..], flagged, w);
    }
  }

  lemma {:induction false} SomeCounted(ws: seq<Waiter>, flagged: set<ClientId>) returns (w: Waiter)
    requires Count(ws, flagged) > 0
    ensures w in ws && w.client in flagged
  {
    if ws[0].client in flagged {
      w := ws[0];
    } else {
      w := SomeCounted(ws[1..], flagged);
    }
  }

  lemma TypeCounted(clients: Clients, total: int, byType: map<BType, int>, t: BType)
    requires CountersOk(clients, total, byType) && t != NotBlocked
    ensures t in byType && (byType[t] == 0 <==> IdsOfType(clients, t) == {})
  {}

  lemma TypeAwaitedIff(clients: Clients, total: int, byType: map<BType, int>, kind: Kind)
    requires CountersOk(clients, total, byType)
    ensures BlockedTypeOf(kind) in byType && BModule in byType
    ensures TypeAwaited(clients, kind) <==>
            BlockedTypeOf(kind) != NotBlocked && (byType[BlockedTypeOf(kind)] != 0 || byType[BModule] != 0)
  {
    TypeCounted(clients, total, byType, BModule);
    if BlockedTypeOf(kind) != NotBlocked {
      TypeCounted(clients, total, byType, BlockedTypeOf(kind));
    }
    assert forall c, t :: c in IdsOfType(clients, t) <==> c in clients && clients[c].blocked && clients[c].btype == t;
  }

  lemma KeyAwaitedIff(clients: Clients, b: Blocking, nokey: map<DbKey, nat>, nextNode: nat, k: DbKey, deleted: bool)
    requires Linked(b, TablesOf(clients), nokey, FlaggedOf(clients), nextNode)
    ensures KeyAwaited(clients, b, k, deleted) <==> if deleted then k in nokey else k in b
  {
    assert forall w :: w in WaitersOf(b, k) ==> w.client in TablesOf(clients);
    var ws, flagged := WaitersOf(b, k), FlaggedOf(clients);
    assert NokeyOf(nokey, k) == Count(ws, flagged);
    if deleted {
      if KeyAwaited(clients, b, k, deleted) {
        var w :| w in ws && w.client in clients && clients[w.client].unblockOnNokey;
        CountedWaiter(ws, flagged, w);
      } else if k in nokey {
        var w := SomeCounted(ws, flagged);
        assert false;
      }
    } else if k in b {
      assert ws[0] in ws;
    }
  }

  /** The quick returns are taken exactly if nobody is blocked on such a type, or nobody waits for this on the key. */
  lemma QuickReturnsIff(
    clients: Clients, b: Blocking, nokey: map<DbKey, nat>, nextNode: nat,
    total: int, byType: map<BType, int>, unblocked: seq<ClientId>, k: DbKey, kind: Kind, deleted: bool)
    requires ValidState(clients, b, nokey, nextNode, total, byType, unblocked)
    ensures BlockedTypeOf(kind) in byType && BModule in byType
    ensures ReturnsQuickly(byType, b, nokey, k, kind, deleted) <==>
            !TypeAwaited(clients, kind) || !KeyAwaited(clients, b, k, deleted)
  {
    hide Linked, CountersOk, TypeAwaited, KeyAwaited, BlockedTypeOf;
    TypeAwaitedIff(clients, total, byType, kind);
    KeyAwaitedIff(clients, b, nokey, nextNode, k, deleted);
  }

  /**
   When a waiter of the key is to be served, a quick return loses the signal exactly if no client at all is blocked
   on the type of the value, or as a module.
   */
  lemma SignalLostIff(
    clients: Clients, b: Blocking, nokey: map<DbKey, nat>, nextNode: nat,
    total: int, byType: map<BType, int>, unblocked: seq<ClientId>, k: DbKey, kind: Kind, deleted: bool)
    requires ValidState(clients, b, nokey, nextNode, total, byType, unblocked)
    requires SomeToServe(clients, b, k, kind, deleted)
    ensures BlockedTypeOf(kind) in byType && BModule in byType
    ensures ReturnsQuickly(byType, b, nokey, k, kind, deleted) <==> !TypeAwaited(clients, kind)
  {
    hide ValidState, TypeAwaited, BlockedTypeOf, ReturnsQuickly;
    QuickReturnsIff(clients, b, nokey, nextNode, total, byType, unblocked, k, kind, deleted);
    var w :| w in WaitersOf(b, k) && w.client in clients && ToServe(clients[w.client], FoundAfter(kind, deleted));
    assert KeyAwaited(clients, b, k, deleted);
  }

  /**
   A waiter to be served misses its signal only if the value is of a kind nobody can block on, or the waiter itself
   blocks on another type and is to be served because it wants to hear of deletions.
   */
  lemma WhoMissesASignal(
    clients: Clients, b: Blocking, nokey: map<DbKey, nat>, nextNode: nat,
    total: int, byType: map<BType, int>, unblocked: seq<ClientId>, k: DbKey, kind: Kind, deleted: bool, w: Waiter)
    requires ValidState(clients, b, nokey, nextNode, total, byType, unblocked)
    requires w in WaitersOf(b, k) && w.client in clients && ToServe(clients[w.client], FoundAfter(kind, deleted))
    requires BlockedTypeOf(kind) in byType && BModule in byType && ReturnsQuickly(byType, b, nokey, k, kind, deleted)
    ensures BlockedTypeOf(kind) != NotBlocked ==>
              clients[w.client].unblockOnNokey && clients[w.client].btype !in {BlockedTypeOf(kind), BModule}
  {
    hide ReturnsQuickly, BlockedTypeOf;
    SignalLostIff(clients, b, nokey, nextNode, total, byType, unblocked, k, kind, deleted);
    assert w.client in TablesOf(clients) && k in clients[w.client].keys;
    assert ClientOk(clients[w.client]);
  }

  /** Waiting for a list, a sorted set or a stream, and such a value; a module waits for any but a string, set or hash. */
  predicate AsksFor(t: BType, kind: Kind) {
    (t, kind) in {(BList, KList), (BZset, KZset), (BStream, KStream)} || (t == BModule && kind != KOther)
  }

  /** Some client waits on `k` for just this, or also for its deletion if that is what is signalled. */
  ghost predicate WaitedFor(clients: Clients, b: Blocking, k: DbKey, kind: Kind, deleted: bool) {
    exists w :: w in WaitersOf(b, k) && w.client in clients
      && (deleted ==> clients[w.client].unblockOnNokey)
      && AsksFor(clients[w.client].btype, kind)
  }

  lemma WaitedForIsHeard(
    clients: Clients, b: Blocking, nokey: map<DbKey, nat>, nextNode: nat,
    total: int, byType: map<BType, int>, unblocked: seq<ClientId>, k: DbKey, kind: Kind, deleted: bool)
    requires ValidState(clients, b, nokey, nextNode, total, byType, unblocked) && WaitedFor(clients, b, k, kind, deleted)
    ensures TypeAwaited(clients, kind) && KeyAwaited(clients, b, k, deleted)
  {
    var w :| w in WaitersOf(b, k) && w.client in clients
      && (deleted ==> clients[w.client].unblockOnNokey)
      && AsksFor(clients[w.client].btype, kind);
    assert w.client in TablesOf(clients) && ClientOk(clients[w.client]);
  }

  /** The keys that a series of signals makes ready. */
  ghost function HeardKeys(clients: Clients, b: Blocking, signals: seq<Signal>): set<DbKey> {
    set s | s in signals && TypeAwaited(clients, s.kind) && KeyAwaited(clients, b, s.key, s.deleted) :: s.key
  }

  lemma ReadyIsQueued(table: set<DbKey>, queued: seq<DbKey>, k: DbKey)
    requires ReadyOk(table, queued)
    ensures k in table ==> k in queued
  {}

  lemma ReadyAppend(table: set<DbKey>, queued: seq<DbKey>, k: DbKey)
    requires ReadyOk(table, queued) && k !in table
    ensures ReadyOk(table + {k}, queued + [k])
  {
    assert k !in queued;
  }

  // ---- serving ----

  lemma {:induction false} WithoutTwice(ws: seq<Waiter>, c: ClientId)
    ensures Without(Without(ws, c), c) == Without(ws, c)
  {
    if ws != [] {
      WithoutTwice(ws[1..], c);
      if ws[0].client != c {
        assert Without(ws, c) == [ws[0]] + Without(ws[1..], c);
        assert Without(ws, c)[1..] == Without(ws[1..], c);
      } else {
        assert Without(ws, c) == Without(ws[1..], c);
      }
    }
  }

  lemma LostThenLost(b0: Blocking, b1: Blocking, b2: Blocking, k: DbKey, c: ClientId)
    requires Lost(b0, b1, {k}, c) && LostEverywhere(b1, b2, c)
    ensures LostEverywhere(b0, b2, c)
  {
    forall m ensures WaitersOf(b2, m) == Without(WaitersOf(b0, m), c) {
      assert WaitersOf(b1, m) == if m in {k} then Without(WaitersOf(b0, m), c) else WaitersOf(b0, m);
      WithoutTwice(WaitersOf(b0, m), c);
    }
  }

  /** Client `c` left every list, and if it blocked again it is at the end of the lists of `keys`. */
  ghost predicate Served(b: Blocking, b': Blocking, c: ClientId, again: set<DbKey>, nextNode: nat) {
    forall k :: if k in again then ServedAt(b, b', k, c, nextNode) else WaitersOf(b', k) == Without(WaitersOf(b, k), c)
  }

  ghost predicate ServedAt(b: Blocking, b': Blocking, k: DbKey, c: ClientId, nextNode: nat) {
    exists n :: n >= nextNode && WaitersOf(b', k) == Without(WaitersOf(b, k), c) + [Waiter(n, c)]
  }

  lemma LostThenGained(b0: Blocking, b1: Blocking, b2: Blocking, c: ClientId, keys: set<DbKey>, nextNode: nat)
    requires LostEverywhere(b0, b1, c) && Gained(b1, b2, keys, c, nextNode)
    ensures Served(b0, b2, c, keys, nextNode)
  {
    forall k ensures if k in keys then ServedAt(b0, b2, k, c, nextNode) else WaitersOf(b2, k) == Without(WaitersOf(b0, k), c) {
      assert WaitersOf(b1, k) == Without(WaitersOf(b0, k), c);
      if k in keys {
        assert GainedAt(b1, b2, k, c, nextNode);
      }
    }
  }

  /** A client that is touched in ways the index, the counters and the queue do not see. */
  lemma FlagsKeepValid(
    clients: Clients, b: Blocking, nokey: map<DbKey, nat>, nextNode: nat,
    total: int, byType: map<BType, int>, unblocked: seq<ClientId>, c: ClientId, pending: bool, reexecuting: bool)
    requires ValidState(clients, b, nokey, nextNode, total, byType, unblocked) && c in clients
    requires clients[c].blocked ==> pending == clients[c].pending
    ensures var after := Put(clients, c, clients[c].(pending := pending, reexecuting := reexecuting));
            ValidState(after, b, nokey, nextNode, total, byType, unblocked) && BlockedIds(after) == BlockedIds(clients)
  {
    var st := clients[c].(pending := pending, reexecuting := reexecuting);
    hide CountersOk, QueueOk, Linked, TablesOf, FlaggedOf, BlockedIds, Put;
    CountersSame(clients, c, st, total, byType);
    QueueUntouched(clients, unblocked, c, st);
    assert ClientOk(clients[c]);
    BlockedClientStaysOk(clients, c, st);
    SameTables(clients, c, st);
  }

  lemma QueueingKeepsValid(
    clients: Clients, b: Blocking, nokey: map<DbKey, nat>, nextNode: nat,
    total: int, byType: map<BType, int>, unblocked: seq<ClientId>, c: ClientId)
    requires ValidState(clients, b, nokey, nextNode, total, byType, unblocked) && c in clients
    ensures var after := Put(clients, c, clients[c].(queued := true));
            && ValidState(after, b, nokey, nextNode, total, byType,
                          if clients[c].queued then unblocked else unblocked + [c])
            && BlockedIds(after) == BlockedIds(clients)
  {
    var st := clients[c].(queued := true);
    hide CountersOk, QueueOk, Linked, TablesOf, FlaggedOf, BlockedIds, Put;
    CountersSame(clients, c, st, total, byType);
    QueueGrows(clients, unblocked, c, st);
    assert ClientOk(clients[c]);
    BlockedClientStaysOk(clients, c, st);
    SameTables(clients, c, st);
  }

  /** One key less in a blocked client's table, once it is unlinked there. */
  lemma OneKeyLessIsValid(
    clients: Clients, b: Blocking, nokey: map<DbKey, nat>, nextNode: nat,
    total: int, byType: map<BType, int>, unblocked: seq<ClientId>, c: ClientId, k: DbKey)
    requires c in clients && ClientsOk(clients) && CountersOk(clients, total, byType) && QueueOk(clients, unblocked)
    requires Linked(b, TablesOf(clients)[c := TablesOf(clients)[c] - {k}], nokey, FlaggedOf(clients), nextNode)
    ensures var after := Put(clients, c, clients[c].(keys := clients[c].keys - {k}));
            ValidState(after, b, nokey, nextNode, total, byType, unblocked) && BlockedIds(after) == BlockedIds(clients)
  {
    var st := clients[c].(keys := clients[c].keys - {k});
    CountersSame(clients, c, st, total, byType);
    QueueUntouched(clients, unblocked, c, st);
    assert ClientOk(clients[c]);
    BlockedClientStaysOk(clients, c, st);
    TablesAfter(clients, c, st);
    assert FlaggedOf(Put(clients, c, st)) == FlaggedOf(clients);
  }

  /** Re-executed commands are built-in ones: they block again on lists, sorted sets or streams. */
  ghost predicate BuiltInScript(outcome: nat -> Outcome) {
    forall n :: outcome(n).BlocksAgain? ==> BuiltIn(outcome(n).btype)
  }

  lemma BuiltInAt(outcome: nat -> Outcome, n: nat)
    requires BuiltInScript(outcome)
    ensures outcome(n).BlocksAgain? ==> BuiltIn(outcome(n).btype)
  {}

  /** The keys a client waits for after its command was run again. */
  function AgainOn(st: Client, o: Outcome): set<DbKey> {
    if st.pending && o.BlocksAgain? then KeySet(o.keys) else {}
  }

  /** The client is blocked as its command asked for. */
  ghost predicate BlockedAs(st: Client, o: Outcome)
    requires o.BlocksAgain?
  {
    && st.blocked && st.btype == o.btype && st.unblockOnNokey == o.unblockOnNokey
    && forall k :: k in st.keys <==> k in o.keys
  }

  lemma BlockedAsAsked(st: Client, row: map<DbKey, nat>, o: Outcome)
    requires o.BlocksAgain? && row.Keys == KeySet(o.keys)
    ensures BlockedAs(BlockedOn(st, o.btype, row, o.unblockOnNokey), o)
  {}

  predicate RunsAgain(st: Client, o: Outcome) {
    st.pending && o.BlocksAgain?
  }

  /** Only client `c` changed. */
  ghost predicate OnlyChanged(clients: Clients, after: Clients, c: ClientId) {
    c in clients && c in after && after == Put(clients, c, after[c])
  }

  lemma ChangedTwice(clients: Clients, mid: Clients, after: Clients, c: ClientId)
    requires OnlyChanged(clients, mid, c) && OnlyChanged(mid, after, c)
    ensures OnlyChanged(clients, after, c)
  {
    PutPut(clients, c, mid[c], after[c]);
  }

  lemma PutOnlyChanges(clients: Clients, c: ClientId, st: Client)
    requires c in clients
    ensures OnlyChanged(clients, Put(clients, c, st), c)
    ensures Put(clients, c, st)[c] == st
  {
    PutPut(clients, c, st, st);
  }

  lemma FreedForgetsKeys(st: Client, k: DbKey)
    ensures Freed(st.(keys := st.keys - {k}), false) == Freed(st, false)
  {}

  lemma IdleClient(clients: Clients, c: ClientId)
    requires ClientsOk(clients) && c in clients && !clients[c].blocked
    ensures clients[c].keys == map[] && clients[c].btype == NotBlocked
  {
    assert ClientOk(clients[c]);
  }

  lemma InOnly(clients: Clients, after: Clients, c: ClientId)
    requires OnlyChanged(clients, after, c)
    ensures c in clients && c in after
  {}

  // ---- one pass over a ready key ----

  function ClientsIn(ws: seq<Waiter>): (r: seq<ClientId>)
    ensures |r| == |ws| && forall i :: 0 <= i < |ws| ==> r[i] == ws[i].client
  {
    seq(|ws|, i requires 0 <= i < |ws| => ws[i].client)
  }

  /** The waiters that stay, given for each whether it was taken out of the list. */
  function Stay(ws: seq<Waiter>, served: seq<bool>): seq<Waiter>
    requires |served| <= |ws|
  {
    if served == [] then [] else Stay(ws, served[..|served| - 1]) + if served[|served| - 1] then [] else [ws[|served| - 1]]
  }

  /** `after` is `before`, or has one new waiter behind. */
  ghost predicate OneNewBehind(before: seq<Waiter>, after: seq<Waiter>, nextNode: nat) {
    after == before || (|after| == |before| + 1 && after[..|before|] == before && after[|before|].node >= nextNode)
  }

  ghost predicate AllNew(ws: seq<Waiter>, nextNode: nat) {
    forall i :: 0 <= i < |ws| ==> ws[i].node >= nextNode
  }

  /**
   Where a pass over a key stands: of the waiters `init` at its start, those in front of position |served| have been
   examined; what is left of the list is those that stay, those still to come, and new ones.
   */
  ghost predicate PassAt(ws: seq<Waiter>, init: seq<Waiter>, served: seq<bool>, behind: seq<Waiter>, nextNode: nat) {
    |served| <= |init| && ws == Stay(init, served) + init[|served|..] + behind && AllNew(behind, nextNode)
  }

  lemma PassBegins(init: seq<Waiter>, nextNode: nat)
    ensures PassAt(init, init, [], [], nextNode)
  {}

  /** The next waiter to examine is at its place in the list, and its successor is the one after it, if any is left. */
  lemma PassNext(ws: seq<Waiter>, init: seq<Waiter>, served: seq<bool>, behind: seq<Waiter>, nextNode: nat)
    requires PassAt(ws, init, served, behind, nextNode) && |served| < |init|
    ensures var i := |Stay(init, served)|;
            i < |ws| && ws[i] == init[|served|] && (|served| + 1 < |init| ==> i + 1 < |ws| && ws[i + 1] == init[|served| + 1])
  {}

  lemma PassKeeps(ws: seq<Waiter>, init: seq<Waiter>, served: seq<bool>, behind: seq<Waiter>, nextNode: nat)
    requires PassAt(ws, init, served, behind, nextNode) && |served| < |init|
    ensures PassAt(ws, init, served + [false], behind, nextNode)
  {
    assert (served + [false])[..|served|] == served;
    assert init[|served|..] == [init[|served|]] + init[|served| + 1..];
  }

  lemma MiddleRemoved(a: seq<Waiter>, x: Waiter, b: seq<Waiter>)
    requires ListOk(a + [x] + b)
    ensures Without(a + [x] + b, x.client) == a + b
  {
    hide Without, ListOk;
    var ws := a + [x] + b;
    WithoutIsRemoved(ws, |a|);
    assert ws[..|a|] == a && ws[|a| + 1..] == b && ws[|a|] == x;
  }

  lemma BehindGrows(left: seq<Waiter>, stay: seq<Waiter>, rest: seq<Waiter>, behind: seq<Waiter>, ws: seq<Waiter>, now: nat)
    returns (behind': seq<Waiter>)
    requires OneNewBehind(left, ws, now) && left == stay + rest + behind
    ensures ws == stay + rest + behind' && (behind' == behind || exists w: Waiter :: w.node >= now && behind' == behind + [w])
  {
    if ws == left {
      behind' := behind;
    } else {
      var w := ws[|left|];
      behind' := behind + [w];
      assert ws == left + [w] == stay + rest + behind';
    }
  }

  lemma PassServes(
    ws: seq<Waiter>, ws': seq<Waiter>, init: seq<Waiter>, served: seq<bool>, behind: seq<Waiter>, nextNode: nat, now: nat)
    returns (behind': seq<Waiter>)
    requires PassAt(ws, init, served, behind, nextNode) && |served| < |init| && ListOk(ws) && now >= nextNode
    requires OneNewBehind(Without(ws, init[|served|].client), ws', now)
    ensures PassAt(ws', init, served + [true], behind', nextNode)
  {
    var stay, x, rest := Stay(init, served), init[|served|], init[|served| + 1..];
    assert (served + [true])[..|served|] == served;
    assert Stay(init, served + [true]) == stay;
    hide Without, ListOk, Stay, OneNewBehind;
    assert init[|served|..] == [x] + rest;
    assert stay + init[|served|..] + behind == stay + [x] + (rest + behind);
    MiddleRemoved(stay, x, rest + behind);
    assert stay + (rest + behind) == stay + rest + behind;
    behind' := BehindGrows(Without(ws, x.client), stay, rest, behind, ws', now);
  }

  /** What is known of a client on a waiter list. */
  lemma WaiterFacts(
    clients: Clients, b: Blocking, nokey: map<DbKey, nat>, nextNode: nat,
    total: int, byType: map<BType, int>, unblocked: seq<ClientId>, k: DbKey, i: nat)
    requires ValidState(clients, b, nokey, nextNode, total, byType, unblocked) && i < |WaitersOf(b, k)|
    ensures k in b && ListOk(b[k]) && WaitersOf(b, k) == b[k]
    ensures var c := WaitersOf(b, k)[i].client;
            c in clients && k in clients[c].keys && clients[c].blocked && BlocksOnKeys(clients[c].btype)
  {
    var w := WaitersOf(b, k)[i];
    assert w in WaitersOf(b, k);
    assert w.client in TablesOf(clients) && k in TablesOf(clients)[w.client];
    assert ClientOk(clients[w.client]);
  }

  lemma ListedIsSome(
    clients: Clients, b: Blocking, nokey: map<DbKey, nat>, nextNode: nat,
    total: int, byType: map<BType, int>, unblocked: seq<ClientId>, k: DbKey)
    requires ValidState(clients, b, nokey, nextNode, total, byType, unblocked) && k in b
    ensures WaitersOf(b, k) == b[k] != []
  {
    assert ListsOk(b);
  }

  /** Serving only unblocks clients, and if it unblocks none it makes no key ready. */
  ghost predicate Progress(before: set<ClientId>, after: set<ClientId>, list: seq<DbKey>, list': seq<DbKey>) {
    after <= before && (after == before ==> list' == list)
  }

  lemma ServedHere(b: Blocking, b': Blocking, c: ClientId, again: set<DbKey>, nextNode: nat, k: DbKey)
    requires Served(b, b', c, again, nextNode)
    ensures OneNewBehind(Without(WaitersOf(b, k), c), WaitersOf(b', k), nextNode)
  {
    if k in again {
      assert ServedAt(b, b', k, c, nextNode);
    }
  }

  lemma OnePlace(ws: seq<Waiter>, i: nat, j: nat)
    requires i < |ws| && j < |ws| && ListOk(ws) && ws[i] == ws[j]
    ensures i == j
  {}

  lemma ProgressChains(s0: set<ClientId>, s1: set<ClientId>, s2: set<ClientId>, l0: seq<DbKey>, l1: seq<DbKey>, l2: seq<DbKey>)
    requires Progress(s0, s1, l0, l1) && Progress(s1, s2, l1, l2)
    ensures Progress(s0, s2, l0, l2)
  {}

  lemma NoProgress(s: set<ClientId>, l: seq<DbKey>)
    ensures Progress(s, s, l, l)
  {}

  lemma PassEnds(ws: seq<Waiter>, init: seq<Waiter>, served: seq<bool>, behind: seq<Waiter>, nextNode: nat)
    requires PassAt(ws, init, served, behind, nextNode) && |served| == |init|
    ensures ws == Stay(init, served) + behind && AllNew(behind, nextNode)
  {
    hide Stay;
    assert init[|served|..] == [];
  }

  lemma ReadyRemove(table: set<DbKey>, l: seq<DbKey>, queued: seq<DbKey>)
    requires l != [] && ReadyOk(table, l + queued)
    ensures ReadyOk(table - {l[0]}, l[1..] + queued)
  {
    var all, left := l + queued, l[1..] + queued;
    assert all == [l[0]] + left;
    assert forall i :: 0 <= i < |left| ==> left[i] == all[i + 1];
    assert forall k :: k in all <==> k == l[0] || k in left;
    assert l[0] !in left by { assert forall i :: 0 < i < |all| ==> all[0] != all[i]; }
  }

  lemma NothingReady(table: set<DbKey>)
    requires ReadyOk(table, [])
    ensures table == {}
  {}

  /** The state of the loop over the waiters: the iterator is at the first one not examined, as the counter says. */
  ghost predicate Examining(
    ws: seq<Waiter>, init: seq<Waiter>, examined: seq<ClientId>, served: seq<bool>, behind: seq<Waiter>, nextNode: nat,
    li: Option<nat>, count: nat)
  {
    && |examined| == |served| <= |init| && count == |init| - |served|
    && examined == ClientsIn(init)[..|examined|]
    && PassAt(ws, init, served, behind, nextNode)
    && (count > 0 ==> li == Some(init[|served|].node))
  }

  lemma ExaminingBegins(init: seq<Waiter>, nextNode: nat)
    requires init != []
    ensures Examining(init, init, [], [], [], nextNode, Some(init[0].node), |init|)
  {
    PassBegins(init, nextNode);
  }

  lemma NothingToExamine(b: Blocking, k: DbKey, nextNode: nat)
    requires k !in b
    ensures ClientsIn(WaitersOf(b, k)) == [] && WaitersOf(b, k) == Stay(WaitersOf(b, k), []) + [] && AllNew([], nextNode)
  {}

  /** Where the iterator stands. */
  lemma ExaminingAt(
    ws: seq<Waiter>, init: seq<Waiter>, examined: seq<ClientId>, served: seq<bool>, behind: seq<Waiter>, nextNode: nat,
    li: Option<nat>, count: nat)
    requires Examining(ws, init, examined, served, behind, nextNode, li, count) && count > 0
    ensures |served| < |init| && var at := |Stay(init, served)|; at < |ws| && li == Some(ws[at].node) && ws[at] == init[|served|]
  {
    PassNext(ws, init, served, behind, nextNode);
  }

  lemma ExaminingStep(
    ws: seq<Waiter>, ws': seq<Waiter>, init: seq<Waiter>, examined: seq<ClientId>, served: seq<bool>, behind: seq<Waiter>,
    nextNode: nat, now: nat, li: Option<nat>, li': Option<nat>, count: nat, left: bool)
    returns (behind': seq<Waiter>)
    requires Examining(ws, init, examined, served, behind, nextNode, li, count) && count > 0 && ListOk(ws) && now >= nextNode
    requires |served| < |init| && var at := |Stay(init, served)|;
             at < |ws| && li' == if at + 1 < |ws| then Some(ws[at + 1].node) else None
    requires if left then OneNewBehind(Without(ws, init[|served|].client), ws', now) else ws' == ws
    ensures Examining(ws', init, examined + [init[|served|].client], served + [left], behind', nextNode, li', count - 1)
  {
    PassNext(ws, init, served, behind, nextNode);
    assert ClientsIn(init)[..|examined| + 1] == examined + [init[|served|].client];
    if left {
      behind' := PassServes(ws, ws', init, served, behind, nextNode, now);
    } else {
      behind' := behind;
      PassKeeps(ws, init, served, behind, nextNode);
    }
  }

  lemma ExaminingEnds(
    ws: seq<Waiter>, init: seq<Waiter>, examined: seq<ClientId>, served: seq<bool>, behind: seq<Waiter>, nextNode: nat,
    li: Option<nat>, count: nat)
    requires Examining(ws, init, examined, served, behind, nextNode, li, count) && (li.None? || count == 0)
    ensures examined == ClientsIn(init) && |served| == |init|
    ensures ws == Stay(init, served) + behind && AllNew(behind, nextNode)
  {
    PassEnds(ws, init, served, behind, nextNode);
    assert ClientsIn(init)[..|init|] == ClientsIn(init);
  }

  // ---- who is served ----

  /** A client waiting for a key that holds `kind` is served: built-in types on their own kind, and who hears of deletions. */
  predicate Gets(st: Client, kind: Option<Kind>) {
    if st.unblockOnNokey then st.btype != BModule
    else (st.btype, kind) in {(BList, Some(KList)), (BZset, Some(KZset)), (BStream, Some(KStream))}
  }

  lemma GetsIsToServe(st: Client, kind: Option<Kind>)
    ensures BlocksOnKeys(st.btype) ==> (Gets(st, kind) <==> ToServe(st, kind) && st.btype != BModule)
  {}

  lemma SameIsOnlyChanged(clients: Clients, c: ClientId)
    requires c in clients
    ensures OnlyChanged(clients, clients, c)
  {
    PutSame(clients, c);
  }

  /** What the key held at some time from then on. */
  ghost predicate KindRead(kindAt: (nat, DbKey) -> Option<Kind>, k: DbKey, from: nat, kind: Option<Kind>) {
    exists t :: t >= from && kind == kindAt(t, k)
  }

  /** The waiters examined so far were decided as they were at the start; the others are still as they were. */
  ghost predicate Deciding(
    start: Clients, clients: Clients, init: seq<Waiter>, served: seq<bool>, kinds: seq<Option<Kind>>,
    kindAt: (nat, DbKey) -> Option<Kind>, k: DbKey, t0: nat)
  {
    && |kinds| == |served| <= |init| && ListOk(init)
    && (forall i :: 0 <= i < |init| ==> init[i].client in start)
    && (forall i :: 0 <= i < |served| ==>
          && (served[i] <==> Gets(start[init[i].client], kinds[i]))
          && KindRead(kindAt, k, t0, kinds[i]))
    && (forall i :: |served| <= i < |init| ==> init[i].client in clients && clients[init[i].client] == start[init[i].client])
  }

  lemma DecidingBegins(
    clients: Clients, b: Blocking, nokey: map<DbKey, nat>, nextNode: nat, total: int, byType: map<BType, int>,
    unblocked: seq<ClientId>, kindAt: (nat, DbKey) -> Option<Kind>, k: DbKey, t0: nat)
    requires ValidState(clients, b, nokey, nextNode, total, byType, unblocked) && k in b
    ensures Deciding(clients, clients, WaitersOf(b, k), [], [], kindAt, k, t0)
  {
    forall i | 0 <= i < |WaitersOf(b, k)| ensures WaitersOf(b, k)[i].client in clients {
      WaiterFacts(clients, b, nokey, nextNode, total, byType, unblocked, k, i);
    }
    assert ListsOk(b);
  }

  lemma DecidingStep(
    start: Clients, clients: Clients, clients': Clients, init: seq<Waiter>, served: seq<bool>, kinds: seq<Option<Kind>>,
    kindAt: (nat, DbKey) -> Option<Kind>, k: DbKey, t0: nat, t: nat, left: bool)
    requires Deciding(start, clients, init, served, kinds, kindAt, k, t0) && |served| < |init| && t >= t0
    requires OnlyChanged(clients, clients', init[|served|].client)
    requires left <==> Gets(clients[init[|served|].client], kindAt(t, k))
    ensures Deciding(start, clients', init, served + [left], kinds + [kindAt(t, k)], kindAt, k, t0)
  {
    hide Gets;
    assert (served + [left])[|served|] == left && (kinds + [kindAt(t, k)])[|served|] == kindAt(t, k);
  }

  lemma DecidingEnds(
    start: Clients, clients: Clients, init: seq<Waiter>, served: seq<bool>, kinds: seq<Option<Kind>>,
    kindAt: (nat, DbKey) -> Option<Kind>, k: DbKey, t0: nat)
    requires Deciding(start, clients, init, served, kinds, kindAt, k, t0) && |served| == |init|
    ensures |kinds| == |init| == |ClientsIn(init)|
    ensures forall i :: 0 <= i < |init| ==>
              && ClientsIn(init)[i] in start && (served[i] <==> Gets(start[ClientsIn(init)[i]], kinds[i]))
              && KindRead(kindAt, k, t0, kinds[i])
  {
    hide Gets;
  }
}
