/**
 The two-sided index of blocked clients as values: from a client to the keys it waits for, with its node in each
 waiter list, and from a key to the first-in first-out list of its waiters.
 */
module BlockedIndex {

  type ClientId = nat
  type DbKey = (nat, string)

  /** One node of a waiter list. */
  datatype Waiter = Waiter(node: nat, client: ClientId)

  type Blocking = map<DbKey, seq<Waiter>>
  type Tables = map<ClientId, map<DbKey, nat>>

  function WaitersOf(b: Blocking, k: DbKey): seq<Waiter> {
    if k in b then b[k] else []
  }

  ghost predicate ListOk(ws: seq<Waiter>) {
    forall i, j :: 0 <= i < j < |ws| ==> ws[i].client != ws[j].client && ws[i].node != ws[j].node
  }

  ghost predicate ListsOk(b: Blocking) {
    forall k :: k in b ==> b[k] != [] && ListOk(b[k])
  }

  /** Every waiter has the key in its table, with its node. */
  ghost predicate Backed(b: Blocking, t: Tables) {
    forall k, w :: w in WaitersOf(b, k) ==> w.client in t && k in t[w.client] && t[w.client][k] == w.node
  }

  /** Every key in a client's table has the client among its waiters, at the stored node. */
  ghost predicate Listed(b: Blocking, t: Tables) {
    forall c, k :: c in t && k in t[c] ==> Waiter(t[c][k], c) in WaitersOf(b, k)
  }

  /** Key `k` is in a client's table exactly if the client is once in k's list, at the stored node; no list is empty. */
  ghost predicate IndexOk(b: Blocking, t: Tables) {
    ListsOk(b) && Backed(b, t) && Listed(b, t)
  }

  /** How many of the waiters are in `flagged`. */
  function Count(ws: seq<Waiter>, flagged: set<ClientId>): nat {
    if ws == [] then 0 else (if ws[0].client in flagged then 1 else 0) + Count(ws[1..], flagged)
  }

  lemma {:induction false} CountConcat(a: seq<Waiter>, b: seq<Waiter>, flagged: set<ClientId>)
    ensures Count(a + b, flagged) == Count(a, flagged) + Count(b, flagged)
  {
    if a == [] {
      assert a + b == b;
    } else {
      CountConcat(a[1..], b, flagged);
      assert (a + b)[1..] == a[1..] + b;
    }
  }

  lemma {:induction false} CountIgnoresOthers(ws: seq<Waiter>, flagged: set<ClientId>, c: ClientId)
    requires forall i :: 0 <= i < |ws| ==> ws[i].client != c
    ensures Count(ws, flagged + {c}) == Count(ws, flagged) == Count(ws, flagged - {c})
  {
    if ws != [] {
      CountIgnoresOthers(ws[1..], flagged, c);
    }
  }

  function NokeyOf(nokey: map<DbKey, nat>, k: DbKey): nat {
    if k in nokey then nokey[k] else 0
  }

  /** The unblock-on-deletion table holds, for each key, how many of its waiters want that; no zero is kept. */
  ghost predicate NokeyOk(b: Blocking, nokey: map<DbKey, nat>, flagged: set<ClientId>) {
    forall k :: NokeyOf(nokey, k) == Count(WaitersOf(b, k), flagged) && (k in nokey ==> nokey[k] > 0)
  }

  // ---- appending a waiter ----

  function AddKey(row: map<DbKey, nat>, k: DbKey, node: nat): map<DbKey, nat> {
    row[k := node]
  }

  function AppendWaiter(b: Blocking, k: DbKey, w: Waiter): Blocking {
    b[k := WaitersOf(b, k) + [w]]
  }

  /** `b'` has exactly one waiter more than `b`: `w`, under `k`. */
  ghost predicate HasOneMore(b: Blocking, b': Blocking, k: DbKey, w: Waiter) {
    forall m, v :: v in WaitersOf(b', m) <==> v in WaitersOf(b, m) || (m == k && v == w)
  }

  lemma AppendHasOneMore(b: Blocking, k: DbKey, w: Waiter)
    requires ListsOk(b)
    requires forall v :: v in WaitersOf(b, k) ==> v.node != w.node && v.client != w.client
    ensures HasOneMore(b, AppendWaiter(b, k, w), k, w) && ListsOk(AppendWaiter(b, k, w))
  {
    assert forall i :: 0 <= i < |WaitersOf(b, k)| ==> WaitersOf(b, k)[i] in WaitersOf(b, k);
  }

  lemma MoreKeepsBacked(b: Blocking, b': Blocking, t: Tables, k: DbKey, w: Waiter)
    requires HasOneMore(b, b', k, w) && w.client in t && k !in t[w.client] && Backed(b, t)
    ensures Backed(b', t[w.client := AddKey(t[w.client], k, w.node)])
  {
    hide WaitersOf;
  }

  lemma MoreKeepsListed(b: Blocking, b': Blocking, t: Tables, k: DbKey, w: Waiter)
    requires HasOneMore(b, b', k, w) && w.client in t && Listed(b, t)
    ensures Listed(b', t[w.client := AddKey(t[w.client], k, w.node)])
  {
    hide WaitersOf;
  }

  lemma AppendKeepsIndex(b: Blocking, t: Tables, k: DbKey, w: Waiter)
    requires IndexOk(b, t) && w.client in t && k !in t[w.client]
    requires forall v :: v in WaitersOf(b, k) ==> v.node != w.node
    ensures IndexOk(AppendWaiter(b, k, w), t[w.client := AddKey(t[w.client], k, w.node)])
  {
    assert forall v :: v in WaitersOf(b, k) ==> v.client != w.client;
    hide ListsOk, Listed, Backed, AppendWaiter, AddKey, WaitersOf, HasOneMore;
    AppendHasOneMore(b, k, w);
    MoreKeepsBacked(b, AppendWaiter(b, k, w), t, k, w);
    MoreKeepsListed(b, AppendWaiter(b, k, w), t, k, w);
  }

  lemma AppendKeepsNokey(b: Blocking, nokey: map<DbKey, nat>, flagged: set<ClientId>, k: DbKey, w: Waiter)
    requires NokeyOk(b, nokey, flagged)
    ensures NokeyOk(AppendWaiter(b, k, w), if w.client in flagged then nokey[k := NokeyOf(nokey, k) + 1] else nokey, flagged)
  {
    CountConcat(WaitersOf(b, k), [w], flagged);
    assert Count([w], flagged) == if w.client in flagged then 1 else 0;
    assert k !in nokey ==> Count(WaitersOf(b, k), flagged) == 0;
  }

  // ---- removing a waiter ----

  function RemoveAt(b: Blocking, k: DbKey, i: nat): Blocking
    requires k in b && i < |b[k]|
  {
    var rest := b[k][..i] + b[k][i + 1..];
    if rest == [] then b - {k} else b[k := rest]
  }

  function Removed(ws: seq<Waiter>, i: nat): seq<Waiter>
    requires i < |ws|
  {
    ws[..i] + ws[i + 1..]
  }

  lemma RemovedList(ws: seq<Waiter>, i: nat)
    requires i < |ws| && ListOk(ws)
    ensures ListOk(Removed(ws, i))
    ensures forall w :: w in Removed(ws, i) <==> w in ws && w != ws[i]
    ensures forall w :: w in Removed(ws, i) ==> w.client != ws[i].client
  {
    var r := Removed(ws, i);
    assert forall j :: 0 <= j < |r| ==> r[j] == if j < i then ws[j] else ws[j + 1];
    forall w | w in ws && w != ws[i] ensures w in r {
      var j :| 0 <= j < |ws| && ws[j] == w;
      assert r[if j < i then j else j - 1] == w;
    }
  }

  /** `b'` is `b` without the waiter `x` of key `k`, the only one of its client. */
  ghost predicate LacksOnly(b: Blocking, b': Blocking, k: DbKey, x: Waiter) {
    && (forall v :: v in WaitersOf(b', k) <==> v in WaitersOf(b, k) && v != x)
    && (forall v :: v in WaitersOf(b', k) ==> v.client != x.client)
    && (forall m :: m != k ==> WaitersOf(b', m) == WaitersOf(b, m))
  }

  lemma RemoveLacksOnly(b: Blocking, k: DbKey, i: nat)
    requires k in b && i < |b[k]| && ListsOk(b)
    ensures LacksOnly(b, RemoveAt(b, k, i), k, b[k][i]) && ListsOk(RemoveAt(b, k, i))
  {
    RemovedList(b[k], i);
    hide ListOk;
    assert WaitersOf(RemoveAt(b, k, i), k) == Removed(b[k], i);
  }

  lemma LackKeepsTables(b: Blocking, b': Blocking, t: Tables, k: DbKey, x: Waiter)
    requires LacksOnly(b, b', k, x) && x.client in t && Backed(b, t) && Listed(b, t)
    ensures Backed(b', t[x.client := t[x.client] - {k}]) && Listed(b', t[x.client := t[x.client] - {k}])
  {
    var t' := t[x.client := t[x.client] - {k}];
    forall m, w | w in WaitersOf(b', m) ensures w.client in t' && m in t'[w.client] && t'[w.client][m] == w.node {
      assert w in WaitersOf(b, m);
    }
    forall c, m | c in t' && m in t'[c] ensures Waiter(t'[c][m], c) in WaitersOf(b', m) {
      assert Waiter(t[c][m], c) in WaitersOf(b, m);
    }
  }

  lemma RemoveKeepsIndex(b: Blocking, t: Tables, k: DbKey, i: nat)
    requires IndexOk(b, t) && k in b && i < |b[k]|
    ensures b[k][i].client in t
    ensures var c := b[k][i].client; IndexOk(RemoveAt(b, k, i), t[c := t[c] - {k}])
  {
    hide ListsOk, Listed, LacksOnly;
    var x := b[k][i];
    assert x in WaitersOf(b, k);
    RemoveLacksOnly(b, k, i);
    LackKeepsTables(b, RemoveAt(b, k, i), t, k, x);
  }

  lemma CountRemoved(ws: seq<Waiter>, i: nat, flagged: set<ClientId>)
    requires i < |ws|
    ensures Count(ws, flagged) == Count(Removed(ws, i), flagged) + if ws[i].client in flagged then 1 else 0
    ensures Removed(ws, i) == [] <==> |ws| == 1
  {
    assert Count([ws[i]], flagged) == if ws[i].client in flagged then 1 else 0;
    hide Count;
    assert ws == ws[..i] + ([ws[i]] + ws[i + 1..]);
    CountConcat(ws[..i], [ws[i]] + ws[i + 1..], flagged);
    CountConcat([ws[i]], ws[i + 1..], flagged);
    CountConcat(ws[..i], ws[i + 1..], flagged);
  }

  lemma RemoveKeepsNokey(b: Blocking, nokey: map<DbKey, nat>, flagged: set<ClientId>, k: DbKey, i: nat)
    requires NokeyOk(b, nokey, flagged) && k in b && i < |b[k]|
    ensures var c := b[k][i].client;
            && (c in flagged ==> k in nokey && nokey[k] > 0)
            && NokeyOk(RemoveAt(b, k, i),
                       if |b[k]| == 1 then nokey - {k}
                       else if c !in flagged then nokey
                       else if nokey[k] == 1 then nokey - {k}
                       else nokey[k := nokey[k] - 1],
                       flagged)
  {
    var ws, b' := b[k], RemoveAt(b, k, i);
    CountRemoved(ws, i, flagged);
    assert NokeyOf(nokey, k) == Count(ws, flagged) && WaitersOf(b', k) == Removed(ws, i);
    assert |ws| == 1 ==> Count(Removed(ws, i), flagged) == 0;
    assert forall m :: m != k ==> WaitersOf(b', m) == WaitersOf(b, m);
    hide Count, RemoveAt, Removed, WaitersOf;
    var n := if |ws| == 1 then nokey - {k}
             else if ws[i].client !in flagged then nokey
             else if nokey[k] == 1 then nokey - {k}
             else nokey[k := nokey[k] - 1];
    assert forall m :: m != k ==> NokeyOf(n, m) == NokeyOf(nokey, m);
  }

  /** A flag of a client that waits nowhere does not matter. */
  lemma FlagOfIdleClient(b: Blocking, t: Tables, nokey: map<DbKey, nat>, flagged: set<ClientId>, c: ClientId)
    requires IndexOk(b, t) && NokeyOk(b, nokey, flagged) && c in t && t[c] == map[]
    ensures NokeyOk(b, nokey, flagged + {c}) && NokeyOk(b, nokey, flagged - {c})
  {
    forall k ensures Count(WaitersOf(b, k), flagged + {c}) == Count(WaitersOf(b, k), flagged) == Count(WaitersOf(b, k), flagged - {c}) {
      assert forall i :: 0 <= i < |WaitersOf(b, k)| ==> WaitersOf(b, k)[i] in WaitersOf(b, k);
      CountIgnoresOthers(WaitersOf(b, k), flagged, c);
    }
  }
}
