/**
 The list of time events as a value: newest first. A timer keeps the number it was created with, also when its id is
 overwritten to mark it deleted.
 */
module AeTimerList {

  datatype Option<+T> = None | Some(value: T)

  datatype Timer = Timer(serial: nat, id: int, when: int, refcount: nat)

  const DELETED := -1

  predicate Has(ts: seq<Timer>, s: nat) {
    exists i :: 0 <= i < |ts| && ts[i].serial == s
  }

  /** Where the timer `s` is in the list. */
  function Place(ts: seq<Timer>, s: nat): (r: nat)
    requires Has(ts, s)
    ensures r < |ts| && ts[r].serial == s
  {
    if ts[0].serial == s then 0 else
      assert Has(ts[1..], s) by {
        var i :| 0 <= i < |ts| && ts[i].serial == s;
        assert ts[1..][i - 1] == ts[i];
      }
      1 + Place(ts[1..], s)
  }

  /** te->next */
  function NextOf(ts: seq<Timer>, s: nat): Option<nat>
    requires Has(ts, s)
  {
    var i := Place(ts, s) + 1;
    if i < |ts| then Some(ts[i].serial) else None
  }

  function HeadOf(ts: seq<Timer>): Option<nat> {
    if ts == [] then None else Some(ts[0].serial)
  }

  function Occurs(stack: seq<nat>, s: nat): nat {
    if stack == [] then 0 else Occurs(stack[..|stack| - 1], s) + if stack[|stack| - 1] == s then 1 else 0
  }

  ghost predicate NewestFirst(ts: seq<Timer>) {
    forall i, j :: 0 <= i < j < |ts| ==> ts[i].serial > ts[j].serial
  }

  ghost predicate TimersOk(ts: seq<Timer>, stack: seq<nat>) {
    forall i :: 0 <= i < |ts| ==>
      (ts[i].id == ts[i].serial || ts[i].id == DELETED) && ts[i].refcount == Occurs(stack, ts[i].serial)
  }

  /** Each timer ever created is in the list or was finalized, once. */
  ghost predicate Conserved(ts: seq<Timer>, nextId: nat, finalized: seq<nat>) {
    && (forall s: nat :: s in finalized ==> s < nextId)
    && (forall s: nat :: Has(ts, s) ==> s < nextId)
    && (forall s: nat :: s < nextId ==> (Has(ts, s) <==> s !in finalized))
    && (forall i, j :: 0 <= i < j < |finalized| ==> finalized[i] != finalized[j])
  }

  ghost predicate Held(ts: seq<Timer>, stack: seq<nat>) {
    forall s :: s in stack ==> Has(ts, s)
  }

  /** `stack` are the timers whose callbacks are running, a timer once for each. None of them was freed. */
  ghost predicate ListOk(ts: seq<Timer>, nextId: nat, finalized: seq<nat>, stack: seq<nat>) {
    NewestFirst(ts) && TimersOk(ts, stack) && Conserved(ts, nextId, finalized) && Held(ts, stack)
  }

  ghost predicate Dead(ts: seq<Timer>, s: nat) {
    Has(ts, s) && ts[Place(ts, s)].id == DELETED
  }

  /** What never happens: an id is not used again, what is finalized stays so, and what is deleted stays deleted. */
  ghost predicate Evolved(
    ts: seq<Timer>, nextId: nat, finalized: seq<nat>, ts': seq<Timer>, nextId': nat, finalized': seq<nat>)
  {
    && nextId <= nextId' && finalized <= finalized'
    && (forall s: nat :: Has(ts', s) && s < nextId ==> Has(ts, s))
    && (forall s: nat :: Dead(ts, s) && s < nextId && Has(ts', s) ==> Dead(ts', s))
  }

  lemma EvolvedTwice(
    ts: seq<Timer>, n: nat, f: seq<nat>, ts1: seq<Timer>, n1: nat, f1: seq<nat>, ts2: seq<Timer>, n2: nat, f2: seq<nat>)
    requires Evolved(ts, n, f, ts1, n1, f1) && Evolved(ts1, n1, f1, ts2, n2, f2)
    ensures Evolved(ts, n, f, ts2, n2, f2)
  {
    hide Has, Dead;
    forall s: nat | Dead(ts, s) && Has(ts2, s) && s < n ensures Dead(ts2, s) {
      assert Has(ts1, s);
    }
  }

  lemma EvolvesToItself(ts: seq<Timer>, n: nat, f: seq<nat>)
    ensures Evolved(ts, n, f, ts, n, f)
  {}

  lemma PlaceIs(ts: seq<Timer>, i: nat)
    requires NewestFirst(ts) && i < |ts|
    ensures Has(ts, ts[i].serial) && Place(ts, ts[i].serial) == i
  {}

  lemma HeldOccurs(stack: seq<nat>, s: nat)
    ensures Occurs(stack + [s], s) == Occurs(stack, s) + 1
    ensures forall r: nat :: r != s ==> Occurs(stack + [s], r) == Occurs(stack, r)
  {
    assert (stack + [s])[..|stack|] == stack;
  }

  lemma {:induction false} OccursIn(stack: seq<nat>, s: nat)
    ensures Occurs(stack, s) > 0 <==> s in stack
  {
    if stack != [] {
      OccursIn(stack[..|stack| - 1], s);
      assert stack == stack[..|stack| - 1] + [stack[|stack| - 1]];
    }
  }

  // ---- changing one timer in place ----

  /** The list with a timer replaced that keeps its number. */
  function Replaced(ts: seq<Timer>, i: nat, t: Timer): seq<Timer>
    requires i < |ts|
  {
    ts[i := t]
  }

  lemma ReplacedHas(ts: seq<Timer>, i: nat, t: Timer)
    requires NewestFirst(ts) && i < |ts| && t.serial == ts[i].serial
    ensures NewestFirst(Replaced(ts, i, t))
    ensures forall s: nat :: Has(Replaced(ts, i, t), s) <==> Has(ts, s)
    ensures forall s: nat :: Has(ts, s) ==> Place(Replaced(ts, i, t), s) == Place(ts, s)
  {
    var ts' := Replaced(ts, i, t);
    assert forall j :: 0 <= j < |ts| ==> ts'[j].serial == ts[j].serial;
    forall s: nat ensures Has(ts', s) <==> Has(ts, s) {}
    forall s: nat | Has(ts, s) ensures Place(ts', s) == Place(ts, s) {
      PlaceIs(ts', Place(ts, s));
    }
  }

  /** Marking a timer deleted, or setting when it is due. */
  lemma ReplaceKeeps(ts: seq<Timer>, nextId: nat, finalized: seq<nat>, stack: seq<nat>, i: nat, t: Timer)
    requires ListOk(ts, nextId, finalized, stack) && i < |ts|
    requires t.serial == ts[i].serial && t.refcount == ts[i].refcount && (t.id == ts[i].id || t.id == DELETED)
    ensures ListOk(Replaced(ts, i, t), nextId, finalized, stack)
    ensures forall r: nat :: Has(Replaced(ts, i, t), r) <==> Has(ts, r)
    ensures Evolved(ts, nextId, finalized, Replaced(ts, i, t), nextId, finalized)
  {
    hide Has, Place, Occurs;
    ReplacedHas(ts, i, t);
  }

  /** A callback of the timer at `i` starts. */
  lemma PushKeeps(ts: seq<Timer>, nextId: nat, finalized: seq<nat>, stack: seq<nat>, i: nat)
    requires ListOk(ts, nextId, finalized, stack) && i < |ts|
    ensures var t := ts[i].(refcount := ts[i].refcount + 1); var s := ts[i].serial;
            && ListOk(Replaced(ts, i, t), nextId, finalized, stack + [s])
            && Evolved(ts, nextId, finalized, Replaced(ts, i, t), nextId, finalized)
  {
    hide Has, Place, Occurs;
    var s := ts[i].serial;
    PlaceIs(ts, i);
    HeldOccurs(stack, s);
    ReplacedHas(ts, i, ts[i].(refcount := ts[i].refcount + 1));
  }

  /** A callback of the timer at `i` ends. */
  lemma PopKeeps(ts: seq<Timer>, nextId: nat, finalized: seq<nat>, stack: seq<nat>, i: nat)
    requires i < |ts| && ListOk(ts, nextId, finalized, stack + [ts[i].serial])
    ensures ts[i].refcount > 0
    ensures forall r: nat :: Has(Replaced(ts, i, ts[i].(refcount := ts[i].refcount - 1)), r) <==> Has(ts, r)
    ensures var t := ts[i].(refcount := ts[i].refcount - 1);
            && ListOk(Replaced(ts, i, t), nextId, finalized, stack)
            && Evolved(ts, nextId, finalized, Replaced(ts, i, t), nextId, finalized)
  {
    hide Has, Place, Occurs;
    var s := ts[i].serial;
    HeldOccurs(stack, s);
    assert forall r :: r in stack ==> r in stack + [s];
    ReplacedHas(ts, i, ts[i].(refcount := ts[i].refcount - 1));
  }

  // ---- a new timer, and one that is freed ----

  function WithNew(ts: seq<Timer>, nextId: nat, when: int): seq<Timer> {
    [Timer(nextId, nextId, when, 0)] + ts
  }

  lemma NewIndex(ts: seq<Timer>, nextId: nat, when: int)
    ensures var ts' := WithNew(ts, nextId, when);
            && |ts'| == |ts| + 1 && ts'[0] == Timer(nextId, nextId, when, 0) && forall j :: 0 < j <= |ts| ==> ts'[j] == ts[j - 1]
  {}

  lemma NewHasOne(ts: seq<Timer>, nextId: nat, when: int, s: nat)
    ensures Has(WithNew(ts, nextId, when), s) <==> Has(ts, s) || s == nextId
  {
    hide WithNew;
    NewIndex(ts, nextId, when);
    var ts' := WithNew(ts, nextId, when);
    if i :| 0 <= i < |ts| && ts[i].serial == s {
      assert ts'[i + 1].serial == s;
    }
    assert ts'[0].serial == nextId;
  }

  lemma NewHas(ts: seq<Timer>, nextId: nat, when: int)
    requires NewestFirst(ts) && forall s: nat :: Has(ts, s) ==> s < nextId
    ensures NewestFirst(WithNew(ts, nextId, when))
    ensures forall s: nat :: Has(WithNew(ts, nextId, when), s) <==> Has(ts, s) || s == nextId
    ensures forall s: nat :: Has(ts, s) ==> Place(WithNew(ts, nextId, when), s) == Place(ts, s) + 1
  {
    hide WithNew, Place;
    NewIndex(ts, nextId, when);
    var ts' := WithNew(ts, nextId, when);
    assert NewestFirst(ts') by {
      forall j | 0 <= j < |ts| ensures ts[j].serial < nextId {
        assert Has(ts, ts[j].serial);
      }
    }
    forall s: nat ensures Has(ts', s) <==> Has(ts, s) || s == nextId {
      NewHasOne(ts, nextId, when, s);
    }
    forall s: nat | Has(ts, s) ensures Place(ts', s) == Place(ts, s) + 1 {
      NewHasOne(ts, nextId, when, s);
      PlaceIs(ts', Place(ts, s) + 1);
    }
  }

  lemma NewTimersOk(ts: seq<Timer>, nextId: nat, stack: seq<nat>, when: int)
    requires TimersOk(ts, stack) && nextId !in stack
    ensures TimersOk(WithNew(ts, nextId, when), stack)
  {
    hide Occurs, WithNew;
    OccursIn(stack, nextId);
    NewIndex(ts, nextId, when);
  }

  lemma NewKeeps(ts: seq<Timer>, nextId: nat, finalized: seq<nat>, stack: seq<nat>, when: int)
    requires ListOk(ts, nextId, finalized, stack)
    ensures ListOk(WithNew(ts, nextId, when), nextId + 1, finalized, stack)
    ensures Evolved(ts, nextId, finalized, WithNew(ts, nextId, when), nextId + 1, finalized)
  {
    hide Has, Place, Occurs, WithNew, TimersOk, NewestFirst;
    NewIndex(ts, nextId, when);
    NewHas(ts, nextId, when);
    NewTimersOk(ts, nextId, stack, when);
  }

  function WithoutAt(ts: seq<Timer>, i: nat): seq<Timer>
    requires i < |ts|
  {
    ts[..i] + ts[i + 1..]
  }

  lemma WithoutIndex(ts: seq<Timer>, i: nat)
    requires i < |ts|
    ensures |WithoutAt(ts, i)| == |ts| - 1
    ensures forall j :: 0 <= j < |ts| - 1 ==> WithoutAt(ts, i)[j] == ts[if j < i then j else j + 1]
  {}

  lemma WithoutHasOne(ts: seq<Timer>, i: nat, s: nat)
    requires NewestFirst(ts) && i < |ts|
    ensures Has(WithoutAt(ts, i), s) <==> Has(ts, s) && s != ts[i].serial
  {
    hide WithoutAt;
    WithoutIndex(ts, i);
    if p :| 0 <= p < |ts| && ts[p].serial == s {
      assert p != i ==> WithoutAt(ts, i)[if p < i then p else p - 1].serial == s;
    }
  }

  lemma WithoutPlace(ts: seq<Timer>, i: nat, s: nat)
    requires NewestFirst(ts) && i < |ts| && Has(WithoutAt(ts, i), s)
    ensures Has(ts, s) && WithoutAt(ts, i)[Place(WithoutAt(ts, i), s)] == ts[Place(ts, s)]
  {
    hide WithoutAt, Has, NewestFirst;
    WithoutIndex(ts, i);
    WithoutHasOne(ts, i, s);
    var p := Place(WithoutAt(ts, i), s);
    PlaceIs(ts, if p < i then p else p + 1);
  }

  lemma WithoutHas(ts: seq<Timer>, i: nat)
    requires NewestFirst(ts) && i < |ts|
    ensures NewestFirst(WithoutAt(ts, i))
    ensures forall s: nat :: Has(WithoutAt(ts, i), s) <==> Has(ts, s) && s != ts[i].serial
    ensures forall s: nat :: Has(WithoutAt(ts, i), s) ==> WithoutAt(ts, i)[Place(WithoutAt(ts, i), s)] == ts[Place(ts, s)]
  {
    hide WithoutAt, Place, Has;
    WithoutIndex(ts, i);
    forall s: nat ensures Has(WithoutAt(ts, i), s) <==> Has(ts, s) && s != ts[i].serial {
      WithoutHasOne(ts, i, s);
    }
    forall s: nat | Has(WithoutAt(ts, i), s) ensures WithoutAt(ts, i)[Place(WithoutAt(ts, i), s)] == ts[Place(ts, s)] {
      WithoutPlace(ts, i, s);
    }
  }

  /** A deleted timer that no callback is running for is unlinked and finalized. */
  lemma FreeKeeps(ts: seq<Timer>, nextId: nat, finalized: seq<nat>, stack: seq<nat>, i: nat)
    requires ListOk(ts, nextId, finalized, stack) && i < |ts| && ts[i].refcount == 0
    ensures ListOk(WithoutAt(ts, i), nextId, finalized + [ts[i].serial], stack)
    ensures Evolved(ts, nextId, finalized, WithoutAt(ts, i), nextId, finalized + [ts[i].serial])
    ensures ts[i].serial !in stack && ts[i].serial !in finalized
  {
    hide Has, Place, Occurs, WithoutAt;
    OccursIn(stack, ts[i].serial);
    PlaceIs(ts, i);
    WithoutHas(ts, i);
    WithoutIndex(ts, i);
  }

  // ---- the order of a pass ----

  /** Between a timer and the next one there is none. */
  lemma NextSkipsNothing(ts: seq<Timer>, s: nat)
    requires NewestFirst(ts) && Has(ts, s)
    ensures NextOf(ts, s).Some? ==> Has(ts, NextOf(ts, s).value) && NextOf(ts, s).value < s
    ensures forall r: nat :: Has(ts, r) && r < s ==> NextOf(ts, s).Some? && r <= NextOf(ts, s).value
  {
    hide Place;
    var i := Place(ts, s);
    forall r: nat | Has(ts, r) && r < s ensures NextOf(ts, s).Some? && r <= NextOf(ts, s).value {
      assert Place(ts, r) > i;
    }
  }
}
