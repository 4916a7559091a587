/** What the actions of a callback or a finalizer do to the list of time events. */
module AeTimerEffects {
  import opened AeTimerList

  datatype Action = Add(milliseconds: int) | Delete(id: int) | Reenter

  /** The delays of the timers that are added, in order. */
  function Delays(actions: seq<Action>): seq<int> {
    if actions == [] then []
    else
      var last := actions[|actions| - 1];
      Delays(actions[..|actions| - 1]) + if last.Add? then [last.milliseconds] else []
  }

  /** Marked deleted, or freed already. */
  ghost predicate Gone(ts: seq<Timer>, s: nat) {
    Has(ts, s) ==> Dead(ts, s)
  }

  /** Of the timers numbered below `n`, those the actions delete are gone. */
  ghost predicate DeletedGone(actions: seq<Action>, n: nat, ts: seq<Timer>) {
    forall s: nat :: s < n && Delete(s) in actions ==> Gone(ts, s)
  }

  /** What becomes of timer `s`: it stays, due when it was, and it is deleted exactly if it was or is by an action. */
  ghost predicate KeptBut(ts: seq<Timer>, actions: seq<Action>, ts': seq<Timer>, s: nat) {
    && (Has(ts', s) <==> Has(ts, s))
    && (Dead(ts', s) <==> Dead(ts, s) || (Has(ts, s) && Delete(s) in actions))
    && (Has(ts, s) && Has(ts', s) ==> ts'[Place(ts', s)].when == ts[Place(ts, s)].when)
  }

  /** The timers other than `s` numbered below `n`. */
  ghost predicate OthersKept(ts: seq<Timer>, n: nat, actions: seq<Action>, ts': seq<Timer>, s: nat) {
    forall r: nat :: r < n && r != s ==> KeptBut(ts, actions, ts', r)
  }

  /** Timer `s` is due at the given time, and deleted only by one of the actions. */
  ghost predicate AddedAs(ts: seq<Timer>, actions: seq<Action>, s: nat, when: int) {
    Has(ts, s) && ts[Place(ts, s)].when == when && (Dead(ts, s) ==> Delete(s) in actions)
  }

  /**
   All that actions do which start no pass: the old timers stay but for those deleted, and the k-th timer added has the
   k-th next id and is due so long after the k-th reading of the clock.
   */
  ghost predicate Acted(
    ts: seq<Timer>, n: nat, now: nat -> int, clock: nat, actions: seq<Action>, ts': seq<Timer>, n': nat)
  {
    && n' == n + |Delays(actions)|
    && (forall s: nat :: s < n ==> KeptBut(ts, actions, ts', s))
    && (forall k: nat :: k < |Delays(actions)| ==>
          AddedAs(ts', actions, n + k, now(clock + k) + Delays(actions)[k] * 1000))
  }

  lemma DelaysMore(actions: seq<Action>, a: Action)
    ensures Delays(actions + [a]) == Delays(actions) + if a.Add? then [a.milliseconds] else []
    ensures Delays([a]) == if a.Add? then [a.milliseconds] else []
  {
    assert (actions + [a])[..|actions|] == actions;
    assert [a][..0] == [];
  }

  lemma NoActions(ts: seq<Timer>, n: nat, now: nat -> int, clock: nat)
    ensures Acted(ts, n, now, clock, [], ts, n) && DeletedGone([], n, ts)
  {}

  lemma KeptTwice(ts: seq<Timer>, actions: seq<Action>, ts1: seq<Timer>, a: Action, ts2: seq<Timer>, s: nat)
    requires KeptBut(ts, actions, ts1, s) && KeptBut(ts1, [a], ts2, s)
    ensures KeptBut(ts, actions + [a], ts2, s)
  {
    assert Delete(s) in actions + [a] <==> Delete(s) in actions || Delete(s) in [a];
    DeadHas(ts, s);
    DeadHas(ts1, s);
    DeadHas(ts2, s);
    hide Has, Dead, Place;
  }

  lemma DeadHas(ts: seq<Timer>, s: nat)
    ensures Dead(ts, s) ==> Has(ts, s)
  {}

  lemma AddedKept(ts1: seq<Timer>, actions: seq<Action>, a: Action, ts2: seq<Timer>, s: nat, when: int)
    requires AddedAs(ts1, actions, s, when) && KeptBut(ts1, [a], ts2, s)
    ensures AddedAs(ts2, actions + [a], s, when)
  {
    hide Has, Dead, Place;
  }

  /** One action more. */
  lemma ActedMore(
    ts: seq<Timer>, n: nat, now: nat -> int, clock: nat, actions: seq<Action>, ts1: seq<Timer>, n1: nat, a: Action,
    ts2: seq<Timer>, n2: nat)
    requires Acted(ts, n, now, clock, actions, ts1, n1)
    requires Acted(ts1, n1, now, clock + |Delays(actions)|, [a], ts2, n2)
    ensures Acted(ts, n, now, clock, actions + [a], ts2, n2)
  {
    hide KeptBut, AddedAs, Delays;
    DelaysMore(actions, a);
    forall s: nat | s < n ensures KeptBut(ts, actions + [a], ts2, s) {
      KeptTwice(ts, actions, ts1, a, ts2, s);
    }
    forall k: nat | k < |Delays(actions + [a])|
      ensures AddedAs(ts2, actions + [a], n + k, now(clock + k) + Delays(actions + [a])[k] * 1000) {
      AddedSo(ts, n, now, clock, actions, ts1, n1, a, ts2, n2, k);
    }
  }

  lemma AddedSo(
    ts: seq<Timer>, n: nat, now: nat -> int, clock: nat, actions: seq<Action>, ts1: seq<Timer>, n1: nat, a: Action,
    ts2: seq<Timer>, n2: nat, k: nat)
    requires Acted(ts, n, now, clock, actions, ts1, n1)
    requires Acted(ts1, n1, now, clock + |Delays(actions)|, [a], ts2, n2)
    requires k < |Delays(actions + [a])|
    ensures AddedAs(ts2, actions + [a], n + k, now(clock + k) + Delays(actions + [a])[k] * 1000)
  {
    hide KeptBut, AddedAs, Delays;
    DelaysMore(actions, a);
    var when := now(clock + k) + Delays(actions + [a])[k] * 1000;
    if k < |Delays(actions)| {
      AddedKept(ts1, actions, a, ts2, n + k, when);
    } else {
      assert AddedAs(ts2, [a], n1 + 0, now(clock + |Delays(actions)| + 0) + Delays([a])[0] * 1000);
      LastAdded(ts2, actions, a, n + k, when);
    }
  }

  lemma LastAdded(ts: seq<Timer>, actions: seq<Action>, a: Action, s: nat, when: int)
    requires AddedAs(ts, [a], s, when)
    ensures AddedAs(ts, actions + [a], s, when)
  {}

  /** A timer that is gone does not come back. */
  lemma StaysGoneAfter(
    ts: seq<Timer>, n: nat, finalized: seq<nat>, ts': seq<Timer>, n': nat, finalized': seq<nat>, s: nat)
    requires Evolved(ts, n, finalized, ts', n', finalized') && s < n && Gone(ts, s)
    ensures Gone(ts', s)
  {
    hide Has, Dead;
  }

  lemma GoneMore(
    ts: seq<Timer>, n: nat, finalized: seq<nat>, ts': seq<Timer>, n': nat, finalized': seq<nat>, n0: nat,
    actions: seq<Action>, a: Action)
    requires Evolved(ts, n, finalized, ts', n', finalized') && n0 <= n
    requires DeletedGone(actions, n0, ts) && DeletedGone([a], n, ts')
    ensures DeletedGone(actions + [a], n0, ts')
  {
    hide Evolved, Gone;
    forall s: nat | s < n0 && Delete(s) in actions + [a] ensures Gone(ts', s) {
      if Delete(s) in actions {
        StaysGoneAfter(ts, n, finalized, ts', n', finalized', s);
      }
    }
  }

  lemma GoneStill(
    ts: seq<Timer>, n: nat, finalized: seq<nat>, ts': seq<Timer>, n': nat, finalized': seq<nat>, n0: nat,
    actions: seq<Action>)
    requires Evolved(ts, n, finalized, ts', n', finalized') && n0 <= n && DeletedGone(actions, n0, ts)
    ensures DeletedGone(actions, n0, ts')
  {
    hide Evolved, Gone;
    forall s: nat | s < n0 && Delete(s) in actions ensures Gone(ts', s) {
      StaysGoneAfter(ts, n, finalized, ts', n', finalized', s);
    }
  }

  /** aeCreateTimeEvent does what adding a timer means. */
  lemma AddActs(ts: seq<Timer>, n: nat, finalized: seq<nat>, stack: seq<nat>, now: nat -> int, clock: nat, ms: int)
    requires ListOk(ts, n, finalized, stack)
    ensures Acted(ts, n, now, clock, [Add(ms)], WithNew(ts, n, now(clock) + ms * 1000), n + 1)
    ensures DeletedGone([Add(ms)], n, WithNew(ts, n, now(clock) + ms * 1000))
  {
    hide Occurs, Place, WithNew, Has, TimersOk;
    var when := now(clock) + ms * 1000;
    var ts' := WithNew(ts, n, when);
    DelaysMore([], Add(ms));
    NewHas(ts, n, when);
    NewIndex(ts, n, when);
    PlaceIs(ts', 0);
    assert Delays([Add(ms)]) == [ms];
    forall s: nat | s < n ensures KeptBut(ts, [Add(ms)], ts', s) {}
  }

  /** aeDeleteTimeEvent marks the first timer with the id, and that is the timer the id was given to. */
  lemma DeleteActs(
    ts: seq<Timer>, n: nat, finalized: seq<nat>, stack: seq<nat>, now: nat -> int, clock: nat, i: nat, id: int)
    requires ListOk(ts, n, finalized, stack) && i < |ts| && ts[i].id == id
    ensures Acted(ts, n, now, clock, [Delete(id)], Replaced(ts, i, ts[i].(id := DELETED)), n)
    ensures DeletedGone([Delete(id)], n, Replaced(ts, i, ts[i].(id := DELETED)))
  {
    hide Occurs, Place, Has, Conserved, Held;
    var x := ts[i].(id := DELETED);
    DelaysMore([], Delete(id));
    ReplacedHas(ts, i, x);
    PlaceIs(ts, i);
    forall s: nat | s < n ensures KeptBut(ts, [Delete(id)], Replaced(ts, i, x), s) {}
  }

  lemma DeleteMisses(ts: seq<Timer>, n: nat, finalized: seq<nat>, stack: seq<nat>, now: nat -> int, clock: nat, id: int)
    requires ListOk(ts, n, finalized, stack) && forall i :: 0 <= i < |ts| ==> ts[i].id != id
    ensures Acted(ts, n, now, clock, [Delete(id)], ts, n) && DeletedGone([Delete(id)], n, ts)
  {
    hide Occurs, Has, Conserved, Held;
    DelaysMore([], Delete(id));
    forall s: nat | s < n ensures KeptBut(ts, [Delete(id)], ts, s) {}
  }

  lemma ReenterActs(ts: seq<Timer>, n: nat, now: nat -> int, clock: nat)
    ensures Acted(ts, n, now, clock, [Reenter], ts, n)
  {
    DelaysMore([], Reenter);
  }

  lemma ReenterDeletesNone(ts: seq<Timer>, n: nat)
    ensures DeletedGone([Reenter], n, ts)
  {}

  // ---- around the actions ----

  /** References taken and given back around the actions. */
  lemma ActedWithin(
    ts: seq<Timer>, i: nat, x: Timer, n: nat, now: nat -> int, clock: nat, actions: seq<Action>, ts': seq<Timer>, n': nat,
    i': nat, x': Timer)
    requires NewestFirst(ts) && i < |ts| && x == ts[i].(refcount := x.refcount)
    requires NewestFirst(ts') && i' < |ts'| && x' == ts'[i'].(refcount := x'.refcount)
    requires Acted(Replaced(ts, i, x), n, now, clock, actions, ts', n')
    ensures Acted(ts, n, now, clock, actions, Replaced(ts', i', x'), n')
  {
    hide Has, Place, Delays;
    ReplacedHas(ts, i, x);
    ReplacedHas(ts', i', x');
    forall s: nat | s < n ensures KeptBut(ts, actions, Replaced(ts', i', x'), s) {
      assert KeptBut(Replaced(ts, i, x), actions, ts', s);
    }
    forall k: nat | k < |Delays(actions)|
      ensures AddedAs(Replaced(ts', i', x'), actions, n + k, now(clock + k) + Delays(actions)[k] * 1000) {
      assert AddedAs(ts', actions, n + k, now(clock + k) + Delays(actions)[k] * 1000);
    }
  }

  /** Afterwards the timer itself is due again, or deleted. */
  lemma OthersAfterReplace(
    ts: seq<Timer>, n: nat, now: nat -> int, clock: nat, actions: seq<Action>, ts': seq<Timer>, n': nat, i: nat, x: Timer)
    requires Acted(ts, n, now, clock, actions, ts', n')
    requires NewestFirst(ts') && i < |ts'| && x.serial == ts'[i].serial
    ensures OthersKept(ts, n, actions, Replaced(ts', i, x), x.serial)
  {
    hide Has, Place, Delays, AddedAs;
    ReplacedHas(ts', i, x);
    PlaceIs(ts', i);
    forall r: nat | r < n && r != x.serial ensures KeptBut(ts, actions, Replaced(ts', i, x), r) {
      assert KeptBut(ts, actions, ts', r);
    }
  }

  /** A timer is freed before the actions. */
  lemma OthersAfterFree(
    ts: seq<Timer>, i: nat, n: nat, now: nat -> int, clock: nat, actions: seq<Action>, ts': seq<Timer>, n': nat)
    requires NewestFirst(ts) && i < |ts| && Acted(WithoutAt(ts, i), n, now, clock, actions, ts', n')
    ensures OthersKept(ts, n, actions, ts', ts[i].serial)
  {
    hide Has, Place, Delays, AddedAs, WithoutAt;
    WithoutHas(ts, i);
    forall r: nat | r < n && r != ts[i].serial ensures KeptBut(ts, actions, ts', r) {
      assert KeptBut(WithoutAt(ts, i), actions, ts', r);
    }
  }

  lemma NothingDone(ts: seq<Timer>, n: nat, s: nat)
    ensures OthersKept(ts, n, [], ts, s) && DeletedGone([], n, ts)
  {}
}
