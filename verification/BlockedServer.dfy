/** The blocking state of the server, edited in place, and the loop that serves blocked clients. */
module BlockedServer {
  import opened BlockedIndex
  import opened Blocked

  class Server {
    var clients: Clients
    var blocking: Blocking
    var nokey: map<DbKey, nat>
    var readyTable: set<DbKey>
    var readyList: seq<DbKey>
    var blockedClients: int
    var byType: map<BType, int>
    var unblockedClients: seq<ClientId>
    var nextNode: nat
    var handling: bool

    /** The script of the environment, and how much of it has been used. */
    const outcome: nat -> Outcome
    const kindAt: (nat, DbKey) -> Option<Kind>
    var clock: nat

    ghost predicate Valid()
      reads this
    {
      ValidState(clients, blocking, nokey, nextNode, blockedClients, byType, unblockedClients)
    }

    /** A server with idle clients only. */
    constructor (clients: Clients, outcome: nat -> Outcome, kindAt: (nat, DbKey) -> Option<Kind>)
      requires forall c :: c in clients ==> !clients[c].queued && !clients[c].blocked && ClientOk(clients[c])
      ensures Valid() && this.clients == clients && blocking == map[] && ReadyOk(readyTable, readyList)
      ensures readyTable == {} && this.outcome == outcome && this.kindAt == kindAt && !handling
    {
      this.clients, blocking, nokey, readyTable, readyList := clients, map[], map[], {}, [];
      blockedClients, unblockedClients, nextNode, handling, clock := 0, [], 0, false, 0;
      byType := map t | t in AllTypes :: 0;
      this.outcome, this.kindAt := outcome, kindAt;
      new;
      forall t ensures t in byType { EveryTypeListed(t); }
      assert RegularIds(clients) == {} && forall t :: IdsOfType(clients, t) == {};
      assert forall k :: WaitersOf(blocking, k) == [];
    }

    // ---- blocking ----

    /** blockClient */
    method BlockClient(c: ClientId, btype: BType)
      requires c in clients && btype in byType
      modifies this`clients, this`blockedClients, this`byType
      ensures clients == Put(old(clients), c, old(clients)[c].(blocked := true, btype := btype))
      ensures blockedClients == if old(clients)[c].isModule then old(blockedClients) else old(blockedClients) + 1
      ensures byType == old(byType)[btype := old(byType)[btype] + 1]
    {
      hide *;
      if !clients[c].isModule {
        blockedClients := blockedClients + 1;
      }
      byType := byType[btype := byType[btype] + 1];
      clients := Put(clients, c, clients[c].(blocked := true, btype := btype));
    }

    /** The deletion count of a key, one up if the waiter wants that. */
    method CountNokey(k: DbKey, unblockOnNokey: bool)
      modifies this`nokey
      ensures nokey == if unblockOnNokey then old(nokey)[k := NokeyOf(old(nokey), k) + 1] else old(nokey)
    {
      if unblockOnNokey {
        if k in nokey {
          nokey := nokey[k := nokey[k] + 1];
        } else {
          nokey := nokey[k := 1];
        }
      }
    }

    /** listAddNodeTail on the waiter list of a key, which is created when the key has none. */
    method LinkWaiter(k: DbKey, w: Waiter)
      modifies this`blocking
      ensures blocking == AppendWaiter(old(blocking), k, w)
    {
      if k in blocking {
        blocking := blocking[k := blocking[k] + [w]];
      } else {
        blocking := blocking[k := [w]];
        assert [] + [w] == [w];
      }
    }

    /** One key of blockForKeys: a new node in the waiter list, and in the client's table. */
    method AddWaiter(c: ClientId, k: DbKey, unblockOnNokey: bool, ghost flagged: set<ClientId>)
      requires c in clients && k !in clients[c].keys && (unblockOnNokey <==> c in flagged)
      requires Linked(blocking, TablesOf(clients), nokey, flagged, nextNode)
      modifies this`clients, this`blocking, this`nokey, this`nextNode
      ensures Linked(blocking, TablesOf(clients), nokey, flagged, nextNode)
      ensures clients == Put(old(clients), c, old(clients)[c].(keys := AddKey(old(clients)[c].keys, k, old(nextNode))))
      ensures nextNode == old(nextNode) + 1
      ensures blocking == AppendWaiter(old(blocking), k, Waiter(old(nextNode), c))
    {
      hide *;
      var st := clients[c].(keys := AddKey(clients[c].keys, k, nextNode));
      TablesBeforeAdd(clients, c, k, nextNode);
      AppendKeepsLinked(blocking, TablesOf(clients), nokey, flagged, nextNode, k, c);
      LinkWaiter(k, Waiter(nextNode, c));
      CountNokey(k, unblockOnNokey);
      clients := Put(clients, c, st);
      nextNode := nextNode + 1;
    }

    /** The loop of blockForKeys. */
    method AddWaiters(c: ClientId, keys: seq<DbKey>, unblockOnNokey: bool, ghost flagged: set<ClientId>)
      requires c in clients && clients[c].keys == map[] && (unblockOnNokey <==> c in flagged)
      requires Linked(blocking, TablesOf(clients), nokey, flagged, nextNode)
      modifies this`clients, this`blocking, this`nokey, this`nextNode
      ensures Linked(blocking, TablesOf(clients), nokey, flagged, nextNode)
      ensures c in clients && clients == Put(old(clients), c, old(clients)[c].(keys := clients[c].keys))
      ensures clients[c].keys.Keys == KeySet(keys)
      ensures Gained(old(blocking), blocking, KeySet(keys), c, old(nextNode)) && nextNode >= old(nextNode)
    {
      hide *;
      ghost var done: set<DbKey> := {};
      ghost var st := clients[c];
      PutSame(clients, c);
      KeySetGrows(keys);
      GainsNothing(blocking, c, nextNode);
      for j := 0 to |keys|
        invariant Linked(blocking, TablesOf(clients), nokey, flagged, nextNode)
        invariant c in clients && clients == Put(old(clients), c, clients[c]) && clients[c] == st.(keys := clients[c].keys)
        invariant done == KeySet(keys[..j]) && clients[c].keys.Keys == done
        invariant Gained(old(blocking), blocking, done, c, old(nextNode)) && nextNode >= old(nextNode)
      {
        if keys[j] !in clients[c].keys {
          GainsOneMore(old(blocking), blocking, done, c, old(nextNode), keys[j], nextNode);
          KeysAfterAdd(clients[c].keys, keys[j], nextNode);
          PutPut(old(clients), c, clients[c], clients[c].(keys := AddKey(clients[c].keys, keys[j], nextNode)));
          AddWaiter(c, keys[j], unblockOnNokey, flagged);
          done := done + {keys[j]};
        }
      }
      assert keys[..|keys|] == keys;
    }

    /** blockForKeys, but for the timeout. */
    method BlockForKeys(c: ClientId, btype: BType, keys: seq<DbKey>, unblockOnNokey: bool)
      requires Valid() && c in clients && !clients[c].blocked && BlocksOnKeys(btype)
      modifies this`clients, this`blocking, this`nokey, this`nextNode, this`blockedClients, this`byType
      ensures Valid()
      ensures c in clients && clients[c].keys.Keys == KeySet(keys)
      ensures clients == Put(old(clients), c, BlockedOn(old(clients)[c], btype, clients[c].keys, unblockOnNokey))
      ensures clients[c].blocked && clients[c].btype == btype && clients[c].unblockOnNokey == unblockOnNokey
      ensures BuiltIn(btype) ==> clients[c].pending
      ensures btype == BModule ==> clients[c].pending == old(clients)[c].pending
      ensures Gained(old(blocking), blocking, KeySet(keys), c, old(nextNode)) && nextNode >= old(nextNode)
      ensures BlockedIds(clients) == BlockedIds(old(clients)) + {c}
    {
      hide Put, Gained, KeySet, BlockedIds, FlaggedOf, Linked, TablesOf, ClientsOk, CountersOk, QueueOk, ValidState,
        NodesOk, IndexOk, NokeyOk;
      ghost var start, flagged := clients, if unblockOnNokey then FlaggedOf(clients) + {c} else FlaggedOf(clients) - {c};
      ValidParts(clients, blocking, nokey, nextNode, blockedClients, byType, unblockedClients);
      IdleClient(clients, c);
      FlagKeepsLinked(blocking, clients, nokey, nextNode, c, unblockOnNokey);
      AddWaiters(c, keys, unblockOnNokey, flagged);
      var row := clients[c].keys;
      BlockedIsValid(start, c, btype, row, unblockOnNokey, blockedClients, byType, unblockedClients, blocking, nokey, nextNode);
      BlockedInSteps(start, c, btype, row, unblockOnNokey);
      clients := Put(clients, c, clients[c].(
        unblockOnNokey := unblockOnNokey, pending := clients[c].pending || btype != BModule));
      BlockClient(c, btype);
    }

    /** Blocking for something that is no key: replicas, the append-only file, a pause, a shutdown or a lazy free. */
    method BlockWithoutKeys(c: ClientId, btype: BType)
      requires Valid() && c in clients && !clients[c].blocked && btype != NotBlocked && !BuiltIn(btype)
      modifies this`clients, this`blockedClients, this`byType
      ensures Valid() && clients == Put(old(clients), c, PostponedOn(old(clients)[c], btype))
      ensures c in clients && clients[c].blocked && clients[c].btype == btype
      ensures clients[c].pending == (old(clients)[c].pending || btype == BPostpone || btype == BPostponeTrim)
      ensures BlockedIds(clients) == BlockedIds(old(clients)) + {c}
    {
      hide Put, BlockedIds, ValidState;
      PostponedIsValid(clients, c, btype, blockedClients, byType, unblockedClients, blocking, nokey, nextNode);
      PostponedInSteps(clients, c, btype);
      BlockClient(c, btype);
      clients := Put(clients, c, clients[c].(pending := clients[c].pending || btype == BPostpone || btype == BPostponeTrim));
    }

    // ---- unblocking ----

    /** releaseBlockedEntry: unlinks the client from the waiters of one key, at the stored node. */
    method ReleaseBlockedEntry(c: ClientId, k: DbKey, ghost t: Tables, ghost flagged: set<ClientId>)
      requires c in clients && k in clients[c].keys && (clients[c].unblockOnNokey <==> c in flagged)
      requires Linked(blocking, t, nokey, flagged, nextNode)
      requires c in t && k in t[c] && t[c][k] == clients[c].keys[k]
      modifies this`blocking, this`nokey
      ensures Linked(blocking, t[c := t[c] - {k}], nokey, flagged, nextNode)
      ensures Lost(old(blocking), blocking, {k}, c)
    {
      hide Linked, Lost, RemoveAt, Removed, ListOk, IndexOk, NokeyOk, NodesOk;
      NodeIsLinked(blocking, t, nokey, flagged, nextNode, k, c);
      var l := blocking[k];
      var i := FindNode(l, clients[c].keys[k], c);
      RemoveKeepsLinked(blocking, t, nokey, flagged, nextNode, k, i);
      UnlinkSteps(blocking, k, i);
      var rest := Removed(l, i);
      if rest == [] {
        blocking := blocking - {k};
        nokey := nokey - {k};
      } else {
        blocking := blocking[k := rest];
        if clients[c].unblockOnNokey {
          if nokey[k] == 1 {
            nokey := nokey - {k};
          } else {
            nokey := nokey[k := nokey[k] - 1];
          }
        }
      }
    }

    /** One step of unblockClientWaitingData: key `k` of the client's table, when `done` are done. */
    method ReleaseNext(
      c: ClientId, k: DbKey, ghost b0: Blocking, ghost t: Tables, ghost flagged: set<ClientId>, ghost done: set<DbKey>)
      requires c in clients && k in clients[c].keys && (clients[c].unblockOnNokey <==> c in flagged)
      requires c in t && t[c] == clients[c].keys && k !in done
      requires Linked(blocking, Narrow(t, c, done), nokey, flagged, nextNode) && Lost(b0, blocking, done, c)
      modifies this`blocking, this`nokey
      ensures Linked(blocking, Narrow(t, c, done + {k}), nokey, flagged, nextNode) && Lost(b0, blocking, done + {k}, c)
    {
      hide *;
      ghost var before := blocking;
      NarrowMore(t, c, done, k);
      ReleaseBlockedEntry(c, k, Narrow(t, c, done), flagged);
      LosesOneMore(b0, before, blocking, done, c, k);
    }

    /** The loop of unblockClientWaitingData: the client leaves every waiter list. */
    method ReleaseAll(c: ClientId, ghost t: Tables, ghost flagged: set<ClientId>)
      requires c in clients && (clients[c].unblockOnNokey <==> c in flagged) && c in t && t[c] == clients[c].keys
      requires Linked(blocking, t, nokey, flagged, nextNode)
      modifies this`blocking, this`nokey
      ensures Linked(blocking, t[c := map[]], nokey, flagged, nextNode)
      ensures Lost(old(blocking), blocking, t[c].Keys, c)
    {
      hide *;
      LosesOnEmpty(blocking, c);
      NarrowSteps(t, c);
      var todo := clients[c].keys.Keys;
      ghost var b0, done := blocking, clients[c].keys.Keys - todo;
      assert done == {};
      while todo != {}
        invariant todo <= clients[c].keys.Keys && done == clients[c].keys.Keys - todo
        invariant Linked(blocking, Narrow(t, c, done), nokey, flagged, nextNode) && Lost(b0, blocking, done, c)
        decreases todo
      {
        var k :| k in todo;
        ReleaseNext(c, k, b0, t, flagged, done);
        todo := todo - {k};
        done := done + {k};
      }
      assert done == t[c].Keys;
    }

    /** unblockClientWaitingData */
    method UnblockWaitingData(c: ClientId)
      requires c in clients && Linked(blocking, TablesOf(clients), nokey, FlaggedOf(clients), nextNode)
      modifies this`clients, this`blocking, this`nokey
      ensures clients == Put(old(clients), c, old(clients)[c].(keys := map[]))
      ensures Linked(blocking, TablesOf(clients), nokey, FlaggedOf(clients), nextNode)
      ensures LostEverywhere(old(blocking), blocking, c)
    {
      hide *;
      ghost var b0, t, nokey0, flagged := blocking, TablesOf(clients), nokey, FlaggedOf(clients);
      InTables(clients, c);
      IdleTables(clients, c);
      ReleaseAll(c, t, flagged);
      LostFromTable(b0, blocking, t, nokey0, flagged, nextNode, c);
      clients := Put(clients, c, clients[c].(keys := map[]));
    }

    /** queueClientForReprocessing */
    method QueueForReprocessing(c: ClientId)
      requires c in clients
      modifies this`clients, this`unblockedClients
      ensures clients == Put(old(clients), c, old(clients)[c].(queued := true))
      ensures unblockedClients == if old(clients)[c].queued then old(unblockedClients) else old(unblockedClients) + [c]
    {
      if !clients[c].queued {
        clients := Put(clients, c, clients[c].(queued := true));
        unblockedClients := unblockedClients + [c];
      } else {
        PutSame(clients, c);
      }
    }

    /** The part of unblockClient that is specific to what the client is blocked on. */
    method LeaveIndex(c: ClientId)
      requires c in clients && ClientOk(clients[c])
      requires Linked(blocking, TablesOf(clients), nokey, FlaggedOf(clients), nextNode)
      modifies this`clients, this`blocking, this`nokey
      ensures clients == Put(old(clients), c, old(clients)[c].(keys := map[]))
      ensures Linked(blocking, TablesOf(clients), nokey, FlaggedOf(clients), nextNode)
      ensures LostEverywhere(old(blocking), blocking, c)
    {
      hide *;
      if BlocksOnKeys(clients[c].btype) {
        UnblockWaitingData(c);
      } else {
        WaitsNowhere(clients[c]);
        NoKeysNothingLost(blocking, clients, nokey, nextNode, c);
        PutSame(clients, c);
      }
    }

    /** The counters of unblockClient. */
    method CountDown(btype: BType, isModule: bool)
      requires btype in byType
      modifies this`blockedClients, this`byType
      ensures blockedClients == if isModule then old(blockedClients) else old(blockedClients) - 1
      ensures byType == old(byType)[btype := old(byType)[btype] - 1]
    {
      if !isModule {
        blockedClients := blockedClients - 1;
      }
      byType := byType[btype := byType[btype] - 1];
    }

    /** unblockClient. The kinds of blocking that wait on no key have no entry in the index. */
    method UnblockClient(c: ClientId, queueForReprocessing: bool)
      requires Valid() && c in clients && clients[c].blocked
      modifies this`clients, this`blocking, this`nokey, this`blockedClients, this`byType, this`unblockedClients
      ensures Valid() && clients == Put(old(clients), c, Freed(old(clients)[c], queueForReprocessing))
      ensures LostEverywhere(old(blocking), blocking, c)
      ensures BlockedIds(clients) == BlockedIds(old(clients)) - {c}
      ensures unblockedClients == if queueForReprocessing && !old(clients)[c].queued then old(unblockedClients) + [c]
                                  else old(unblockedClients)
    {
      hide Put, LostEverywhere, BlockedIds, FlaggedOf, Linked, TablesOf, ClientsOk, CountersOk, QueueOk, ValidState,
        NodesOk, IndexOk, NokeyOk, ClientOk, WaitersOf, Without;
      ghost var start, b0 := clients, blocking;
      var st := clients[c];
      ValidParts(clients, blocking, nokey, nextNode, blockedClients, byType, unblockedClients);
      IsOk(clients, c);
      LeaveIndex(c);
      FreedIsValid(start, c, queueForReprocessing, blockedClients, byType, unblockedClients, blocking, nokey, nextNode);
      FreedInSteps(start, c);
      CountDown(st.btype, st.isModule);
      clients := Put(clients, c, Freed(st, false));
      if queueForReprocessing {
        QueueForReprocessing(c);
      }
    }

    // ---- making keys ready ----

    /**
     signalKeyAsReadyLogic: the key becomes ready exactly if somebody is blocked on such a type and somebody waits for
     this on the key. `rest` are the keys the serving loop has taken off the list but not yet served.
     */
    method SignalKeyAsReady(k: DbKey, kind: Kind, deleted: bool, ghost rest: seq<DbKey>)
      requires Valid() && ReadyOk(readyTable, rest + readyList)
      modifies this`readyTable, this`readyList
      ensures ReadyOk(readyTable, rest + readyList)
      ensures var heard := TypeAwaited(clients, kind) && KeyAwaited(clients, blocking, k, deleted);
              && readyTable == (if heard then old(readyTable) + {k} else old(readyTable))
              && readyList == (if heard && k !in old(readyTable) then old(readyList) + [k] else old(readyList))
      ensures WaitedFor(clients, blocking, k, kind, deleted) ==> k in readyTable && k in rest + readyList
    {
      hide ReadyOk, ValidState, BlockedTypeOf, TypeAwaited, KeyAwaited, WaitedFor;
      if WaitedFor(clients, blocking, k, kind, deleted) {
        WaitedForIsHeard(clients, blocking, nokey, nextNode, blockedClients, byType, unblockedClients, k, kind, deleted);
      }
      ReadyIsQueued(readyTable, rest + readyList, k);
      QuickReturnsIff(clients, blocking, nokey, nextNode, blockedClients, byType, unblockedClients, k, kind, deleted);
      var btype := BlockedTypeOf(kind);
      if btype == NotBlocked {
        return;
      }
      if byType[btype] == 0 && byType[BModule] == 0 {
        return;
      }
      if deleted {
        if k !in nokey {
          return;
        }
      } else {
        if k !in blocking {
          return;
        }
      }
      if k in readyTable {
        assert readyTable + {k} == readyTable;
        return;
      }
      ReadyAppend(readyTable, rest + readyList, k);
      assert rest + (readyList + [k]) == rest + readyList + [k];
      readyTable := readyTable + {k};
      readyList := readyList + [k];
    }

    method SignalAll(signals: seq<Signal>, ghost rest: seq<DbKey>)
      requires Valid() && ReadyOk(readyTable, rest + readyList)
      modifies this`readyTable, this`readyList
      ensures ReadyOk(readyTable, rest + readyList)
      ensures readyTable == old(readyTable) + HeardKeys(clients, blocking, signals)
    {
      hide ReadyOk, TypeAwaited, KeyAwaited, ValidState;
      for i := 0 to |signals|
        invariant ReadyOk(readyTable, rest + readyList)
        invariant readyTable == old(readyTable) + HeardKeys(clients, blocking, signals[..i])
      {
        SignalKeyAsReady(signals[i].key, signals[i].kind, signals[i].deleted, rest);
        assert signals[..i + 1] == signals[..i] + [signals[i]];
      }
      assert signals[..|signals|] == signals;
    }

    // ---- serving ----

    /** releaseBlockedEntry with remove_key: the client leaves one key, on both sides. */
    method LeaveKey(c: ClientId, k: DbKey)
      requires Valid() && c in clients && k in clients[c].keys
      modifies this`clients, this`blocking, this`nokey
      ensures Valid() && clients == Put(old(clients), c, old(clients)[c].(keys := old(clients)[c].keys - {k}))
      ensures Lost(old(blocking), blocking, {k}, c)
      ensures BlockedIds(clients) == BlockedIds(old(clients))
    {
      hide Put, Lost, BlockedIds, FlaggedOf, Linked, TablesOf, ClientsOk, CountersOk, QueueOk, ValidState,
        NodesOk, IndexOk, NokeyOk, WaitersOf, Without;
      ghost var t, flagged := TablesOf(clients), FlaggedOf(clients);
      ValidParts(clients, blocking, nokey, nextNode, blockedClients, byType, unblockedClients);
      InTables(clients, c);
      ReleaseBlockedEntry(c, k, t, flagged);
      OneKeyLessIsValid(clients, blocking, nokey, nextNode, blockedClients, byType, unblockedClients, c, k);
      clients := Put(clients, c, clients[c].(keys := clients[c].keys - {k}));
    }

    /** The first half of unblockClientOnKey: the client leaves the key, then everything else it waits for. */
    method LeaveKeyAndUnblock(c: ClientId, k: DbKey)
      requires Valid() && c in clients && k in clients[c].keys
      modifies this`clients, this`blocking, this`nokey, this`blockedClients, this`byType, this`unblockedClients
      ensures Valid() && OnlyChanged(old(clients), clients, c)
      ensures clients[c] == Freed(old(clients)[c], false)
      ensures LostEverywhere(old(blocking), blocking, c)
      ensures BlockedIds(clients) == BlockedIds(old(clients)) - {c}
    {
      hide Put, Lost, LostEverywhere, BlockedIds, FlaggedOf, Linked, TablesOf, ClientsOk, CountersOk, QueueOk,
        ValidState, OnlyChanged, Freed, ClientOk, WaitersOf, Without;
      ghost var start, b0, st := clients, blocking, clients[c];
      ghost var less := st.(keys := st.keys - {k});
      BlockedIfWaiting(clients, blocking, nokey, nextNode, blockedClients, byType, unblockedClients, c, k);
      PutPut(start, c, less, Freed(less, false));
      PutOnlyChanges(start, c, Freed(less, false));
      FreedForgetsKeys(st, k);
      LeaveKey(c, k);
      ghost var b1 := blocking;
      UnblockClient(c, false);
      LostThenLost(b0, b1, blocking, k, c);
    }

    /** Sets or clears the flags of a client that is about to run its command again, or has. */
    method SetFlags(c: ClientId, pending: bool, reexecuting: bool)
      requires Valid() && c in clients && (clients[c].blocked ==> pending == clients[c].pending)
      modifies this`clients
      ensures Valid() && OnlyChanged(old(clients), clients, c)
      ensures clients[c] == old(clients)[c].(pending := pending, reexecuting := reexecuting)
      ensures BlockedIds(clients) == BlockedIds(old(clients))
    {
      hide Put, BlockedIds, ValidState, OnlyChanged;
      FlagsKeepValid(
        clients, blocking, nokey, nextNode, blockedClients, byType, unblockedClients, c, pending, reexecuting);
      PutOnlyChanges(clients, c, clients[c].(pending := pending, reexecuting := reexecuting));
      clients := Put(clients, c, clients[c].(pending := pending, reexecuting := reexecuting));
    }

    /** queueClientForReprocessing, on a valid server. */
    method QueueServed(c: ClientId)
      requires Valid() && c in clients
      modifies this`clients, this`unblockedClients
      ensures Valid() && OnlyChanged(old(clients), clients, c)
      ensures clients[c] == old(clients)[c].(queued := true)
      ensures BlockedIds(clients) == BlockedIds(old(clients))
    {
      hide Put, BlockedIds, ValidState, OnlyChanged;
      QueueingKeepsValid(clients, blocking, nokey, nextNode, blockedClients, byType, unblockedClients, c);
      PutOnlyChanges(clients, c, clients[c].(queued := true));
      QueueForReprocessing(c);
    }

    /** What processCommandAndResetClient does to the blocking state: it completes, or blocks the client again. */
    method Execute(c: ClientId, o: Outcome, ghost rest: seq<DbKey>)
      requires Valid() && ReadyOk(readyTable, rest + readyList) && c in clients && !clients[c].blocked
      requires o.BlocksAgain? ==> BuiltIn(o.btype)
      modifies this`clients, this`blocking, this`nokey, this`nextNode, this`blockedClients, this`byType
      modifies this`readyTable, this`readyList
      ensures Valid() && ReadyOk(readyTable, rest + readyList) && OnlyChanged(old(clients), clients, c)
      ensures nextNode >= old(nextNode)
      ensures Gained(old(blocking), blocking, if o.BlocksAgain? then KeySet(o.keys) else {}, c, old(nextNode))
      ensures clients[c].blocked <==> o.BlocksAgain?
      ensures o.BlocksAgain? ==> BlockedAs(clients[c], o)
      ensures clients[c].isModule == old(clients)[c].isModule
      ensures BlockedIds(clients) == if o.BlocksAgain? then BlockedIds(old(clients)) + {c} else BlockedIds(old(clients))
      ensures o.BlocksAgain? ==> readyList == old(readyList)
      ensures readyTable == old(readyTable) + if o.Completes? then HeardKeys(clients, blocking, o.signals) else {}
    {
      hide Gained, ReadyOk, ValidState, BlockedIds, KeySet, HeardKeys;
      match o
      case Completes(signals) =>
        PutSame(clients, c);
        GainsNothing(blocking, c, nextNode);
        SignalAll(signals, rest);
      case BlocksAgain(btype, keys, flag) =>
        PutOnlyChanges(clients, c, clients[c]);
        ghost var st := clients[c];
        BlockForKeys(c, btype, keys, flag);
        BlockedAsAsked(st, clients[c].keys, o);
    }

    /** After the command was run again: the client is queued unless it blocked again, and its flag is cleared. */
    method FinishRun(c: ClientId)
      requires Valid() && c in clients
      modifies this`clients, this`unblockedClients
      ensures Valid() && OnlyChanged(old(clients), clients, c)
      ensures clients[c] == old(clients)[c].(reexecuting := false, queued := clients[c].queued)
      ensures !clients[c].blocked && !clients[c].isModule ==> clients[c].queued
      ensures clients[c].isModule == old(clients)[c].isModule
      ensures BlockedIds(clients) == BlockedIds(old(clients))
    {
      hide *;
      ghost var start := clients;
      PutOnlyChanges(start, c, clients[c]);
      PutSame(start, c);
      if !clients[c].blocked && !clients[c].isModule {
        QueueServed(c);
      }
      ghost var mid := clients;
      InOnly(start, mid, c);
      SetFlags(c, clients[c].pending, false);
      ChangedTwice(start, mid, clients, c);
      InOnly(start, clients, c);
    }

    /** The second half of unblockClientOnKey. */
    method RunAgain(c: ClientId, ghost rest: seq<DbKey>)
      requires Valid() && ReadyOk(readyTable, rest + readyList) && BuiltInScript(outcome)
      requires c in clients && !clients[c].blocked
      modifies this
      ensures Valid() && ReadyOk(readyTable, rest + readyList) && OnlyChanged(old(clients), clients, c)
      ensures handling == old(handling) && nextNode >= old(nextNode) && clock >= old(clock)
      ensures var o := outcome(old(clock));
              && Gained(old(blocking), blocking, if o.BlocksAgain? then KeySet(o.keys) else {}, c, old(nextNode))
              && (clients[c].blocked <==> o.BlocksAgain?)
              && (o.BlocksAgain? ==> BlockedAs(clients[c], o))
              && (!o.BlocksAgain? && !old(clients)[c].isModule ==> clients[c].queued)
              && BlockedIds(clients) == (if o.BlocksAgain? then BlockedIds(old(clients)) + {c} else BlockedIds(old(clients)))
              && (o.BlocksAgain? ==> readyList == old(readyList))
    {
      hide ValidState, ReadyOk, BuiltInScript, OnlyChanged, Gained, KeySet, BlockedIds, BuiltIn, WaitersOf, Put;
      ghost var start := clients;
      var o := outcome(clock);
      BuiltInAt(outcome, clock);
      clock := clock + 1;
      SetFlags(c, false, true);
      ghost var c1 := clients;
      InOnly(start, c1, c);
      Execute(c, o, rest);
      ghost var c2 := clients;
      InOnly(c1, c2, c);
      FinishRun(c);
      InOnly(c2, clients, c);
      ChangedTwice(start, c1, c2, c);
      ChangedTwice(start, c2, clients, c);
    }

    /** unblockClientOnKey: serves a client of a built-in type by running its command again. */
    method UnblockClientOnKey(c: ClientId, k: DbKey, ghost rest: seq<DbKey>)
      requires Valid() && ReadyOk(readyTable, rest + readyList) && BuiltInScript(outcome)
      requires c in clients && k in clients[c].keys && BuiltIn(clients[c].btype)
      modifies this
      ensures Valid() && ReadyOk(readyTable, rest + readyList) && OnlyChanged(old(clients), clients, c)
      ensures handling == old(handling) && nextNode >= old(nextNode) && clock >= old(clock)
      ensures old(clients)[c].pending
      ensures var st, o := old(clients)[c], outcome(old(clock));
              && Served(old(blocking), blocking, c, AgainOn(st, o), old(nextNode))
              && (clients[c].blocked <==> RunsAgain(st, o))
              && (RunsAgain(st, o) ==> BlockedAs(clients[c], o))
              && (st.pending && !clients[c].blocked && !st.isModule ==> clients[c].queued)
              && BlockedIds(clients) == (if RunsAgain(st, o) then BlockedIds(old(clients)) else BlockedIds(old(clients)) - {c})
              && (RunsAgain(st, o) ==> readyList == old(readyList))
    {
      hide ValidState, ReadyOk, BuiltInScript, Served, Gained, LostEverywhere, BlockedIds, OnlyChanged, KeySet,
        WaitersOf, Without, Put, ClientOk, BuiltIn;
      ghost var start, b0, st := clients, blocking, clients[c];
      BlockedIfWaiting(clients, blocking, nokey, nextNode, blockedClients, byType, unblockedClients, c, k);
      BuiltInTypes(clients[c].btype);
      LeaveKeyAndUnblock(c, k);
      ghost var c1, b1 := clients, blocking;
      InOnly(start, c1, c);
      if clients[c].pending {
        RunAgain(c, rest);
        ChangedTwice(start, c1, clients, c);
        InOnly(start, clients, c);
        LostThenGained(b0, b1, blocking, c, AgainOn(st, outcome(old(clock))), old(nextNode));
      }
    }

    /** The body of the loop of handleClientsBlockedOnKey, for one receiver; `served` when it left the list. */
    method ServeReceiver(c: ClientId, k: DbKey, ghost rest: seq<DbKey>) returns (served: bool)
      requires Valid() && ReadyOk(readyTable, rest + readyList) && BuiltInScript(outcome)
      requires c in clients && k in clients[c].keys && clients[c].blocked && BlocksOnKeys(clients[c].btype)
      modifies this
      ensures Valid() && ReadyOk(readyTable, rest + readyList) && OnlyChanged(old(clients), clients, c)
      ensures handling == old(handling) && nextNode >= old(nextNode) && clock >= old(clock)
      ensures served <==> ToServe(old(clients)[c], kindAt(old(clock), k)) && old(clients)[c].btype != BModule
      ensures served <==> Gets(old(clients)[c], kindAt(old(clock), k))
      ensures !served ==> blocking == old(blocking)
      ensures served ==> OneNewBehind(Without(WaitersOf(old(blocking), k), c), WaitersOf(blocking, k), old(nextNode))
      ensures Progress(BlockedIds(old(clients)), BlockedIds(clients), old(readyList), readyList)
    {
      hide ValidState, ReadyOk, BuiltInScript, Served, BlockedIds, OnlyChanged, OneNewBehind, Without, WaitersOf, ToServe, Gets;
      GetsIsToServe(clients[c], kindAt(clock, k));
      BlockedIfWaiting(clients, blocking, nokey, nextNode, blockedClients, byType, unblockedClients, c, k);
      ghost var b0, n0, st := blocking, nextNode, clients[c];
      if ToServe(clients[c], kindAt(clock, k)) && clients[c].btype != BModule {
        ghost var o := outcome(clock);
        UnblockClientOnKey(c, k, rest);
        ServedHere(b0, blocking, c, AgainOn(st, o), n0, k);
        return true;
      }
      SameIsOnlyChanged(clients, c);
      return false;
    }

    /** listNext on the waiters of `k`: where the current node is, and the node after it. */
    method NextWaiter(k: DbKey, node: nat, ghost w: Waiter, ghost at: nat) returns (c: ClientId, li: Option<nat>)
      requires k in blocking && ListOk(blocking[k]) && at < |blocking[k]| && blocking[k][at] == w && w.node == node
      ensures c == w.client
      ensures li == if at + 1 < |blocking[k]| then Some(blocking[k][at + 1].node) else None
    {
      var l := blocking[k];
      var i := FindNode(l, node, w.client);
      OnePlace(l, i, at);
      return l[i].client, if i + 1 < |l| then Some(l[i + 1].node) else None;
    }

    /** One round of the loop over the waiters: the receiver the iterator stands on is served or left. */
    method ServeNext(
      k: DbKey, node: nat, count: nat, ghost rest: seq<DbKey>, ghost init: seq<Waiter>,
      ghost examined: seq<ClientId>, ghost served: seq<bool>, ghost behind: seq<Waiter>, ghost n0: nat,
      ghost start: Clients, ghost kinds: seq<Option<Kind>>, ghost t0: nat)
      returns (receiver: ClientId, li: Option<nat>, ghost left: bool, ghost behind': seq<Waiter>)
      requires Valid() && ReadyOk(readyTable, rest + readyList) && BuiltInScript(outcome) && nextNode >= n0 && count > 0
      requires Examining(WaitersOf(blocking, k), init, examined, served, behind, n0, Some(node), count)
      requires Deciding(start, clients, init, served, kinds, kindAt, k, t0) && clock >= t0
      modifies this
      ensures Valid() && ReadyOk(readyTable, rest + readyList) && handling == old(handling) && nextNode >= n0
      ensures Deciding(start, clients, init, served + [left], kinds + [kindAt(old(clock), k)], kindAt, k, t0)
      ensures clock >= old(clock)
      ensures Examining(WaitersOf(blocking, k), init, examined + [receiver], served + [left], behind', n0, li, count - 1)
      ensures Progress(BlockedIds(old(clients)), BlockedIds(clients), old(readyList), readyList)
    {
      hide ValidState, ReadyOk, BuiltInScript, BlockedIds, Progress, AllNew, Stay, OneNewBehind, Without, ListOk,
        Examining, WaitersOf, ClientsIn, ListsOk, ToServe, Gets, Deciding, OnlyChanged;
      ghost var ws, n1, c0, t1 := WaitersOf(blocking, k), nextNode, clients, clock;
      ExaminingAt(ws, init, examined, served, behind, n0, Some(node), count);
      ghost var at := |Stay(init, served)|;
      WaiterFacts(clients, blocking, nokey, nextNode, blockedClients, byType, unblockedClients, k, at);
      receiver, li := NextWaiter(k, node, ws[at], at);
      var gone := ServeReceiver(receiver, k, rest);
      left := gone;
      DecidingStep(start, c0, clients, init, served, kinds, kindAt, k, t0, t1, left);
      behind' := ExaminingStep(
        ws, WaitersOf(blocking, k), init, examined, served, behind, n0, n1, Some(node), li, count, left);
    }

    /** The loop of handleClientsBlockedOnKey, over the waiters `init` that the key has at entry. */
    method ServeAll(k: DbKey, node: nat, n: nat, ghost rest: seq<DbKey>, ghost init: seq<Waiter>)
      returns (examined: seq<ClientId>, ghost served: seq<bool>, ghost behind: seq<Waiter>, ghost kinds: seq<Option<Kind>>)
      requires Valid() && ReadyOk(readyTable, rest + readyList) && BuiltInScript(outcome)
      requires Examining(WaitersOf(blocking, k), init, [], [], [], nextNode, Some(node), n)
      requires Deciding(clients, clients, init, [], [], kindAt, k, clock)
      modifies this
      ensures Deciding(old(clients), clients, init, served, kinds, kindAt, k, old(clock))
      ensures Valid() && ReadyOk(readyTable, rest + readyList) && handling == old(handling)
      ensures exists li, count ::
                Examining(WaitersOf(blocking, k), init, examined, served, behind, old(nextNode), li, count)
                && (li.None? || count == 0)
      ensures Progress(BlockedIds(old(clients)), BlockedIds(clients), old(readyList), readyList)
    {
      hide *;
      ghost var n0, s0, l0, start, t0 := nextNode, BlockedIds(clients), readyList, clients, clock;
      examined, served, behind, kinds := [], [], [], [];
      NoProgress(s0, l0);
      var li, count := Some(node), n;
      while li.Some? && count > 0
        invariant Valid() && ReadyOk(readyTable, rest + readyList) && handling == old(handling) && nextNode >= n0
        invariant Examining(WaitersOf(blocking, k), init, examined, served, behind, n0, li, count)
        invariant Progress(s0, BlockedIds(clients), l0, readyList)
        invariant Deciding(start, clients, init, served, kinds, kindAt, k, t0) && clock >= t0
        decreases count
      {
        ghost var s1, l1 := BlockedIds(clients), readyList;
        ghost var left;
        var receiver;
        ghost var kind := kindAt(clock, k);
        receiver, li, left, behind := ServeNext(
          k, li.value, count, rest, init, examined, served, behind, n0, start, kinds, t0);
        kinds := kinds + [kind];
        ProgressChains(s0, s1, BlockedIds(clients), l0, l1, readyList);
        examined, served, count := examined + [receiver], served + [left], count - 1;
      }
    }

    /**
     handleClientsBlockedOnKey. The clients examined are exactly those queued at entry, each once, in their order,
     whatever the commands that are run again append. Those are served that wait for what the key holds then, or want to
     hear of deletions; the others stay, in order, in front of the new ones.
     */
    method HandleClientsBlockedOnKey(k: DbKey, ghost rest: seq<DbKey>)
      returns (examined: seq<ClientId>, ghost served: seq<bool>, ghost behind: seq<Waiter>, ghost kinds: seq<Option<Kind>>)
      requires Valid() && ReadyOk(readyTable, rest + readyList) && BuiltInScript(outcome)
      modifies this
      ensures Valid() && ReadyOk(readyTable, rest + readyList) && handling == old(handling)
      ensures examined == ClientsIn(WaitersOf(old(blocking), k))
      ensures |served| == |examined| == |kinds|
      ensures forall i :: 0 <= i < |examined| ==>
                && examined[i] in old(clients) && (served[i] <==> Gets(old(clients)[examined[i]], kinds[i]))
                && KindRead(kindAt, k, old(clock), kinds[i])
      ensures WaitersOf(blocking, k) == Stay(WaitersOf(old(blocking), k), served) + behind && AllNew(behind, old(nextNode))
      ensures Progress(BlockedIds(old(clients)), BlockedIds(clients), old(readyList), readyList)
    {
      hide ValidState, ReadyOk, BuiltInScript, BlockedIds, Progress, AllNew, Stay, ListOk, Examining, WaitersOf,
        ClientsIn, ListsOk, Deciding, Gets;
      ghost var init, n0 := WaitersOf(blocking, k), nextNode;
      if k !in blocking {
        examined, served, behind, kinds := [], [], [], [];
        NothingToExamine(blocking, k, n0);
        NoProgress(BlockedIds(clients), readyList);
        return;
      }
      ListedIsSome(clients, blocking, nokey, nextNode, blockedClients, byType, unblockedClients, k);
      ExaminingBegins(init, n0);
      DecidingBegins(clients, blocking, nokey, nextNode, blockedClients, byType, unblockedClients, kindAt, k, clock);
      examined, served, behind, kinds := ServeAll(k, blocking[k][0].node, |blocking[k]|, rest, init);
      ghost var li, count :| Examining(WaitersOf(blocking, k), init, examined, served, behind, n0, li, count)
                             && (li.None? || count == 0);
      ExaminingEnds(WaitersOf(blocking, k), init, examined, served, behind, n0, li, count);
      DecidingEnds(old(clients), clients, init, served, kinds, kindAt, k, old(clock));
    }

    /** The inner loop of handleClientsBlockedOnKeys: serves the keys of one list, which it has taken over. */
    method ServeList(taken: seq<DbKey>)
      requires Valid() && BuiltInScript(outcome) && readyList == [] && ReadyOk(readyTable, taken)
      modifies this
      ensures Valid() && ReadyOk(readyTable, readyList) && handling == old(handling)
      ensures Progress(BlockedIds(old(clients)), BlockedIds(clients), [], readyList)
    {
      hide ValidState, BuiltInScript, BlockedIds, Progress, ReadyOk;
      var l := taken;
      ghost var s0 := BlockedIds(clients);
      NoProgress(s0, []);
      assert l + [] == l;
      while l != []
        invariant Valid() && ReadyOk(readyTable, l + readyList) && handling == old(handling)
        invariant Progress(s0, BlockedIds(clients), [], readyList)
        decreases l
      {
        ghost var s1, l1 := BlockedIds(clients), readyList;
        ReadyRemove(readyTable, l, readyList);
        readyTable := readyTable - {l[0]};
        var examined, served, behind, kinds := HandleClientsBlockedOnKey(l[0], l[1..]);
        ProgressChains(s0, s1, BlockedIds(clients), [], l1, readyList);
        l := l[1..];
      }
      assert [] + readyList == readyList;
    }

    /**
     handleClientsBlockedOnKeys. It ends, because each round unblocks a client or leaves no key ready; then the
     ready list and the ready table are empty. A nested call does nothing.
     */
    method HandleClientsBlockedOnKeys()
      requires Valid() && BuiltInScript(outcome) && ReadyOk(readyTable, readyList)
      modifies this
      ensures Valid() && ReadyOk(readyTable, readyList) && handling == old(handling)
      ensures old(handling) ==> clients == old(clients) && blocking == old(blocking) && readyList == old(readyList)
      ensures !old(handling) ==> readyList == [] && readyTable == {}
      ensures BlockedIds(clients) <= BlockedIds(old(clients))
    {
      if handling {
        return;
      }
      handling := true;
      while readyList != []
        invariant Valid() && ReadyOk(readyTable, readyList) && handling
        invariant BlockedIds(clients) <= BlockedIds(old(clients))
        decreases BlockedIds(clients), |readyList|
      {
        hide ValidState, BuiltInScript, BlockedIds, ReadyOk;
        ghost var s0 := BlockedIds(clients);
        var l := readyList;
        readyList := [];
        ServeList(l);
        assert BlockedIds(clients) == s0 ==> readyList == [];
      }
      NothingReady(readyTable);
      handling := false;
    }
  }

  const AllTypes: set<BType> :=
    {NotBlocked, BList, BZset, BStream, BModule, BWait, BWaitAof, BPostpone, BPostponeTrim, BShutdown, BLazyFree}

  lemma EveryTypeListed(t: BType)
    ensures t in AllTypes
  {
    match t
    case NotBlocked => case BList => case BZset => case BStream => case BModule => case BWait =>
    case BWaitAof => case BPostpone => case BPostponeTrim => case BShutdown => case BLazyFree =>
  }

  lemma KeysAfterAdd(row: map<DbKey, nat>, k: DbKey, n: nat)
    ensures AddKey(row, k, n).Keys == row.Keys + {k}
  {}

  lemma KeySetGrows(keys: seq<DbKey>)
    ensures KeySet(keys[..0]) == {}
    ensures forall j :: 0 <= j < |keys| ==> KeySet(keys[..j + 1]) == KeySet(keys[..j]) + {keys[j]}
    ensures forall j :: 0 <= j < |keys| && keys[j] in KeySet(keys[..j]) ==> KeySet(keys[..j + 1]) == KeySet(keys[..j])
  {
    assert forall j :: 0 <= j < |keys| ==> keys[..j + 1] == keys[..j] + [keys[j]];
  }

  lemma GainsNothing(b: Blocking, c: ClientId, nextNode: nat)
    ensures Gained(b, b, {}, c, nextNode)
  {}

  /** The position of a node in a waiter list. */
  method FindNode(l: seq<Waiter>, pos: nat, ghost c: ClientId) returns (i: nat)
    requires Waiter(pos, c) in l && ListOk(l)
    ensures i < |l| && l[i] == Waiter(pos, c)
  {
    i := 0;
    while l[i].node != pos
      invariant i < |l| && Waiter(pos, c) in l[i..]
      decreases |l| - i
    {
      assert l[i..] == [l[i]] + l[i + 1..];
      i := i + 1;
    }
    assert l[i] in l[i..];
    ghost var j :| i <= j < |l| && l[j] == Waiter(pos, c);
  }

  lemma UnlinkSteps(b: Blocking, k: DbKey, i: nat)
    requires k in b && i < |b[k]|
    ensures Removed(b[k], i) == [] <==> |b[k]| == 1
    ensures RemoveAt(b, k, i) == if Removed(b[k], i) == [] then b - {k} else b[k := Removed(b[k], i)]
  {}

  /** A reader of a stream that wants to hear of deletions is to be served, but misses the list put under its key. */
  method StreamReaderMissesList(key: DbKey) returns (server: Server)
    ensures fresh(server) && server.Valid()
    ensures SomeToServe(server.clients, server.blocking, key, KList, false) && key !in server.readyTable
  {
    hide ValidState, ReadyOk, Gained;
    server := OneWaiter(BStream, key, true);
    server.SignalKeyAsReady(key, KList, false, []);
  }

  /** A module that waits for a key is to be served whatever the key holds, but misses a string put there. */
  method ModuleMissesString(key: DbKey) returns (server: Server)
    ensures fresh(server) && server.Valid()
    ensures SomeToServe(server.clients, server.blocking, key, KOther, false) && key !in server.readyTable
  {
    hide ValidState, ReadyOk, Gained;
    server := OneWaiter(BModule, key, false);
    server.SignalKeyAsReady(key, KOther, false, []);
  }

  /** A server with one client, blocked on one key. */
  method OneWaiter(btype: BType, key: DbKey, unblockOnNokey: bool) returns (server: Server)
    requires BlocksOnKeys(btype)
    ensures fresh(server) && server.Valid() && server.readyTable == {} && ReadyOk({}, [] + server.readyList)
    ensures server.clients.Keys == {1} && server.clients[1].btype == btype
    ensures server.clients[1].blocked && server.clients[1].unblockOnNokey == unblockOnNokey
    ensures exists w :: w in WaitersOf(server.blocking, key) && w.client == 1
  {
    hide ValidState, ReadyOk, Gained, BlockedIds, WaitersOf;
    var idle := Client(false, NotBlocked, map[], false, false, false, false, false);
    server := new Server(map[1 := idle], n => Completes([]), (n, k) => None);
    assert [] + server.readyList == server.readyList;
    server.BlockForKeys(1, btype, [key], unblockOnNokey);
    IsWaiting(server.clients, server.blocking, server.nokey, server.nextNode, server.blockedClients, server.byType,
              server.unblockedClients, 1, key);
  }
}
