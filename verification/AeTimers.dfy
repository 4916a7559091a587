/**
 Time events under callbacks that add and delete timers and start a nested pass.

 The environment is a script: the n-th reading of the clock, and what the n-th callback and the n-th finalizer do.
 A run nests passes to some finite depth; a callback or finalizer that would go deeper does not start another pass.
 */
module AeTimers {
  import opened AeTimerList
  import opened AeTimerEffects

  datatype Proc = Proc(actions: seq<Action>, retval: int)

  const NOMORE := -1

  /**
   What a pass finds at a timer it reaches, and whether it fires it; `nth` numbers the callback that is called, or the
   finalizer.
   */
  datatype Visit = Visit(serial: nat, dead: bool, when: int, now: int, fired: bool, nth: nat)

  /** What runs when the timer is reached: its callback, or its finalizer. */
  function ActionsAt(v: Visit, stack: seq<nat>, proc: nat -> Proc, finalizer: nat -> seq<Action>): seq<Action> {
    if v.fired then proc(v.nth).actions else if v.dead && v.serial !in stack then finalizer(v.nth) else []
  }

  /** One of these callbacks and finalizers deletes timer `s`. */
  ghost predicate DeletedBy(
    visits: seq<Visit>, stack: seq<nat>, proc: nat -> Proc, finalizer: nat -> seq<Action>, s: nat)
  {
    exists i :: 0 <= i < |visits| && Delete(s) in ActionsAt(visits[i], stack, proc, finalizer)
  }

  /** A timer deleted by a callback or finalizer before it is reached is found deleted. */
  ghost predicate DeletionsSeen(visits: seq<Visit>, stack: seq<nat>, proc: nat -> Proc, finalizer: nat -> seq<Action>) {
    forall j :: 0 <= j < |visits| && DeletedBy(visits[..j], stack, proc, finalizer, visits[j].serial) ==> visits[j].dead
  }

  /** What the callbacks and finalizers deleted is gone. */
  ghost predicate DeletionsDone(
    n0: nat, visits: seq<Visit>, stack: seq<nat>, proc: nat -> Proc, finalizer: nat -> seq<Action>, ts: seq<Timer>)
  {
    forall s: nat :: s < n0 && DeletedBy(visits, stack, proc, finalizer, s) ==> Gone(ts, s)
  }

  /** The timer is found deleted exactly if it was at the start or was deleted since, and is due when it was. */
  ghost predicate FoundAs(
    start: seq<Timer>, visits: seq<Visit>, stack: seq<nat>, proc: nat -> Proc, finalizer: nat -> seq<Action>, v: Visit)
  {
    && Has(start, v.serial) && v.when == start[Place(start, v.serial)].when
    && (v.dead <==> Dead(start, v.serial) || DeletedBy(visits, stack, proc, finalizer, v.serial))
  }

  ghost predicate AllFoundAs(
    start: seq<Timer>, visits: seq<Visit>, stack: seq<nat>, proc: nat -> Proc, finalizer: nat -> seq<Action>)
  {
    forall j :: 0 <= j < |visits| ==> FoundAs(start, visits[..j], stack, proc, finalizer, visits[j])
  }

  /** A timer not reached yet is as it was at the start, but deleted if an action said so. */
  ghost predicate Unchanged(
    start: seq<Timer>, visits: seq<Visit>, stack: seq<nat>, proc: nat -> Proc, finalizer: nat -> seq<Action>,
    ts: seq<Timer>, s: nat)
  {
    && (Has(ts, s) <==> Has(start, s))
    && (Dead(ts, s) <==> Dead(start, s) || (Has(start, s) && DeletedBy(visits, stack, proc, finalizer, s)))
    && (Has(ts, s) && Has(start, s) ==> ts[Place(ts, s)].when == start[Place(start, s)].when)
  }

  ghost predicate RestUnchanged(
    start: seq<Timer>, n0: nat, visits: seq<Visit>, stack: seq<nat>, proc: nat -> Proc, finalizer: nat -> seq<Action>,
    ts: seq<Timer>, te: Option<nat>)
  {
    te.Some? ==> forall s: nat :: s < n0 && s <= te.value ==> Unchanged(start, visits, stack, proc, finalizer, ts, s)
  }

  /** The callbacks and finalizers numbered in the visits are those of the timers reached. */
  ghost predicate NumberedRight(visits: seq<Visit>, stack: seq<nat>, calls: seq<Call>, finalized: seq<nat>) {
    forall i :: 0 <= i < |visits| ==> NthRight(visits[i], stack, calls, finalized)
  }

  ghost predicate NthRight(v: Visit, stack: seq<nat>, calls: seq<Call>, finalized: seq<nat>) {
    && (v.fired ==> v.nth < |calls| && calls[v.nth].serial == v.serial && calls[v.nth].when == v.when
                    && calls[v.nth].now == v.now)
    && (v.dead && v.serial !in stack ==> v.nth < |finalized| && finalized[v.nth] == v.serial)
  }

  /** Nothing ran, so the time is not read again. */
  predicate Idle(v: Visit, stack: seq<nat>) {
    !v.fired && (v.dead ==> v.serial in stack)
  }

  /** The time is read at the start, and again whenever a callback or finalizer has run. */
  ghost predicate Clocked(visits: seq<Visit>, stack: seq<nat>, now: nat -> int, clock: nat, clock': nat) {
    && (visits != [] ==> visits[0].now == now(clock))
    && forall j :: 0 < j < |visits| ==>
         if Idle(visits[j - 1], stack) then visits[j].now == visits[j - 1].now
         else ReadBetween(now, clock + 1, clock', visits[j].now)
  }

  ghost predicate ReadBetween(now: nat -> int, lo: nat, hi: nat, t: int) {
    exists c: nat :: lo <= c < hi && t == now(c)
  }

  ghost predicate Visited(visits: seq<Visit>, s: nat) {
    exists i :: 0 <= i < |visits| && visits[i].serial == s
  }

  /** Timers are reached in the order of the list, from those that were there at the start; live and due ones fire. */
  ghost predicate VisitsOk(start: seq<Timer>, visits: seq<Visit>, finalized: seq<nat>, stack: seq<nat>) {
    && (forall i, j :: 0 <= i < j < |visits| ==> visits[i].serial > visits[j].serial)
    && (forall i :: 0 <= i < |visits| ==>
          && Has(start, visits[i].serial)
          && (visits[i].fired <==> !visits[i].dead && visits[i].when <= visits[i].now)
          && (visits[i].dead && visits[i].serial !in stack ==> visits[i].serial in finalized)
          && (Dead(start, visits[i].serial) ==> visits[i].dead))
  }

  /** What a finished pass has done. */
  ghost predicate PassDone(start: seq<Timer>, visits: seq<Visit>, finalized: seq<nat>, stack: seq<nat>) {
    && VisitsOk(start, visits, finalized, stack)
    && forall s: nat :: Has(start, s) ==> Visited(visits, s) || s in finalized
  }

  /** A pass that stands on `cur`. */
  ghost predicate Passing(
    start: seq<Timer>, visits: seq<Visit>, cur: Option<nat>, ts: seq<Timer>, finalized: seq<nat>, stack: seq<nat>)
  {
    && VisitsOk(start, visits, finalized, stack)
    && (cur.Some? ==> Has(ts, cur.value) && Has(start, cur.value))
    && (cur.Some? ==> forall i :: 0 <= i < |visits| ==> visits[i].serial > cur.value)
    && forall s: nat :: Has(start, s) ==> Visited(visits, s) || s in finalized || (cur.Some? && s <= cur.value)
  }

  /** What is found by going on from `s`: the nearest older timer. */
  ghost predicate Nearest(ts: seq<Timer>, s: nat, next: Option<nat>) {
    && (next.Some? ==> Has(ts, next.value) && next.value < s)
    && forall r: nat :: Has(ts, r) && r < s ==> next.Some? && r <= next.value
  }

  lemma PassBegins(ts: seq<Timer>, finalized: seq<nat>, stack: seq<nat>)
    requires NewestFirst(ts)
    ensures Passing(ts, [], HeadOf(ts), ts, finalized, stack)
  {
    forall s: nat | Has(ts, s) ensures HeadOf(ts).Some? && s <= HeadOf(ts).value {
      var i :| 0 <= i < |ts| && ts[i].serial == s;
    }
    assert ts != [] ==> Has(ts, ts[0].serial);
  }

  lemma PassEnds(start: seq<Timer>, visits: seq<Visit>, ts: seq<Timer>, finalized: seq<nat>, stack: seq<nat>)
    requires Passing(start, visits, None, ts, finalized, stack)
    ensures PassDone(start, visits, finalized, stack)
  {}

  lemma VisitedMore(visits: seq<Visit>, v: Visit)
    ensures forall s: nat :: Visited(visits + [v], s) <==> Visited(visits, s) || s == v.serial
  {
    forall s: nat ensures Visited(visits + [v], s) <==> Visited(visits, s) || s == v.serial {
      if i :| 0 <= i < |visits| && visits[i].serial == s {
        assert (visits + [v])[i].serial == s;
      }
      assert (visits + [v])[|visits|] == v;
    }
  }

  lemma VisitsGrow(
    start: seq<Timer>, visits: seq<Visit>, v: Visit, finalized: seq<nat>, finalized': seq<nat>, stack: seq<nat>)
    requires VisitsOk(start, visits, finalized, stack) && finalized <= finalized'
    requires forall i :: 0 <= i < |visits| ==> visits[i].serial > v.serial
    requires Has(start, v.serial) && (v.fired <==> !v.dead && v.when <= v.now) && (Dead(start, v.serial) ==> v.dead)
    requires v.dead && v.serial !in stack ==> v.serial in finalized'
    ensures VisitsOk(start, visits + [v], finalized', stack)
  {
    hide Has, Dead;
    assert forall x :: x in finalized ==> x in finalized';
  }

  /** One timer further. */
  lemma PassStep(
    start: seq<Timer>, visits: seq<Visit>, v: Visit, ts: seq<Timer>, nextId: nat, finalized: seq<nat>,
    ts': seq<Timer>, nextId': nat, finalized': seq<nat>, stack: seq<nat>, n0: nat, f0: seq<nat>, next: Option<nat>)
    requires Passing(start, visits, Some(v.serial), ts, finalized, stack)
    requires (v.fired <==> !v.dead && v.when <= v.now) && (v.dead && v.serial !in stack ==> v.serial in finalized')
    requires v.dead <==> Dead(ts, v.serial)
    requires Conserved(start, n0, f0) && Evolved(start, n0, f0, ts, nextId, finalized)
    requires Evolved(ts, nextId, finalized, ts', nextId', finalized') && Conserved(ts', nextId', finalized')
    requires Nearest(ts', v.serial, next)
    ensures Passing(start, visits + [v], next, ts', finalized', stack)
  {
    hide Has, Dead, Visited, VisitsOk;
    EvolvedTwice(start, n0, f0, ts, nextId, finalized, ts', nextId', finalized');
    VisitsGrow(start, visits, v, finalized, finalized', stack);
    VisitedMore(visits, v);
    assert forall x :: x in finalized ==> x in finalized';
  }

  /** A callback that was called: its timer, by a pass that may still nest so many others, when due, and at what time. */
  datatype Call = Call(serial: nat, depth: nat, when: int, now: int)

  /** The timers called by the passes of one depth. */
  function CalledAt(calls: seq<Call>, depth: nat): seq<nat> {
    if calls == [] then []
    else CalledAt(calls[..|calls| - 1], depth) +
         if calls[|calls| - 1].depth == depth then [calls[|calls| - 1].serial] else []
  }

  function FiredSerials(visits: seq<Visit>): seq<nat> {
    if visits == [] then []
    else FiredSerials(visits[..|visits| - 1]) +
         if visits[|visits| - 1].fired then [visits[|visits| - 1].serial] else []
  }

  /** The timers a pass frees that nests no other: those it finds deleted, unless a callback of theirs is running. */
  function FreedSerials(visits: seq<Visit>, stack: seq<nat>): seq<nat> {
    if visits == [] then []
    else
      var v := visits[|visits| - 1];
      FreedSerials(visits[..|visits| - 1], stack) + if v.dead && v.serial !in stack then [v.serial] else []
  }

  /** Deleted, and no callback of it is running. */
  ghost predicate Doomed(ts: seq<Timer>, stack: seq<nat>, s: nat) {
    Dead(ts, s) && s !in stack
  }

  /** All that could be freed before is. */
  ghost predicate Swept(ts: seq<Timer>, stack: seq<nat>, finalized: seq<nat>) {
    forall s: nat :: Doomed(ts, stack, s) ==> s in finalized
  }

  /** A timer and the next one could both be freed. */
  ghost predicate BothDoomed(ts: seq<Timer>, stack: seq<nat>, s: nat) {
    && Doomed(ts, stack, s)
    && NextOf(ts, s).Some? && Doomed(ts, stack, NextOf(ts, s).value)
  }

  /** The calls added were made by passes nested deeper. */
  ghost predicate CallsBelow(calls: seq<Call>, calls': seq<Call>, depth: nat) {
    calls <= calls' && forall i :: |calls| <= i < |calls'| ==> calls'[i].depth < depth
  }

  lemma {:induction false} DeeperCallsElsewhere(calls: seq<Call>, calls': seq<Call>, depth: nat)
    requires CallsBelow(calls, calls', depth)
    ensures CalledAt(calls', depth) == CalledAt(calls, depth)
    decreases |calls'|
  {
    if |calls'| > |calls| {
      DeeperCallsElsewhere(calls, calls'[..|calls'| - 1], depth);
    } else {
      assert calls' == calls;
    }
  }

  lemma CallsBelowTwice(calls: seq<Call>, calls1: seq<Call>, calls2: seq<Call>, depth: nat)
    requires CallsBelow(calls, calls1, depth) && CallsBelow(calls1, calls2, depth)
    ensures CallsBelow(calls, calls2, depth)
  {}

  /** The first timer with the id is at place `i`. */
  ghost predicate FirstWith(ts: seq<Timer>, i: int, id: int) {
    0 <= i < |ts| && ts[i].id == id && forall j :: 0 <= j < i ==> ts[j].id != id
  }

  /** A live timer that is due no later than any other. */
  ghost predicate IsEarliest(ts: seq<Timer>, i: int) {
    && 0 <= i < |ts| && ts[i].id != DELETED
    && forall j :: 0 <= j < |ts| && ts[j].id != DELETED ==> ts[i].when <= ts[j].when
  }

  class EventLoop {
    var timers: seq<Timer>
    var nextId: nat
    /** The timers unlinked, finalized and freed, in that order. */
    var finalized: seq<nat>
    var calls: seq<Call>
    var clock: nat
    /** The timers whose callbacks are running. */
    ghost var stack: seq<nat>

    const now: nat -> int
    const proc: nat -> Proc
    const finalizer: nat -> seq<Action>

    ghost predicate Valid()
      reads this
    {
      ListOk(timers, nextId, finalized, stack)
    }

    ghost predicate QuietFinalizers() {
      forall n :: Reenter !in finalizer(n)
    }

    /** No finalizer starts a pass: none wants to, or none may because of the depth. */
    ghost predicate Calm(depth: nat) {
      depth == 0 || QuietFinalizers()
    }

    /** aeCreateEventLoop */
    constructor (now: nat -> int, proc: nat -> Proc, finalizer: nat -> seq<Action>)
      ensures Valid() && timers == [] && finalized == [] && stack == [] && calls == [] && nextId == 0 && clock == 0
      ensures this.now == now && this.proc == proc && this.finalizer == finalizer
    {
      timers, nextId, finalized, calls, clock, stack := [], 0, [], [], 0, [];
      this.now, this.proc, this.finalizer := now, proc, finalizer;
    }

    /** getMonotonicUs */
    method GetMonotonicUs() returns (t: int)
      modifies this`clock
      ensures t == now(old(clock)) && clock == old(clock) + 1
    {
      t, clock := now(clock), clock + 1;
    }

    /** aeCreateTimeEvent */
    method CreateTimeEvent(milliseconds: int) returns (id: nat)
      requires Valid()
      modifies this`timers, this`nextId, this`clock
      ensures Valid() && id == old(nextId) && nextId == id + 1
      ensures timers == WithNew(old(timers), id, now(old(clock)) + milliseconds * 1000) && clock == old(clock) + 1
      ensures Evolved(old(timers), old(nextId), old(finalized), timers, nextId, finalized)
    {
      hide ListOk, Evolved, WithNew;
      NewKeeps(timers, nextId, finalized, stack, now(clock) + milliseconds * 1000);
      id := nextId;
      nextId := nextId + 1;
      var t := GetMonotonicUs();
      timers := WithNew(timers, id, t + milliseconds * 1000);
    }

    /** aeDeleteTimeEvent: only marks the timer. */
    method DeleteTimeEvent(id: int) returns (ok: bool)
      requires Valid()
      modifies this`timers
      ensures Valid() && Evolved(old(timers), old(nextId), old(finalized), timers, nextId, finalized)
      ensures ok <==> exists i :: 0 <= i < |old(timers)| && old(timers)[i].id == id
      ensures !ok ==> timers == old(timers)
      ensures ok ==> exists i :: FirstWith(old(timers), i, id) &&
                       timers == Replaced(old(timers), i, old(timers)[i].(id := DELETED))
    {
      hide ListOk, Evolved, Replaced;
      EvolvesToItself(timers, nextId, finalized);
      var i := 0;
      while i < |timers|
        invariant i <= |timers| && timers == old(timers) && forall j :: 0 <= j < i ==> timers[j].id != id
      {
        if timers[i].id == id {
          ReplaceKeeps(timers, nextId, finalized, stack, i, timers[i].(id := DELETED));
          assert FirstWith(timers, i, id);
          timers := Replaced(timers, i, timers[i].(id := DELETED));
          return true;
        }
        i := i + 1;
      }
      return false;
    }

    /**
     usUntilEarliestTimer: how long until the first live timer is due; -1 when there is no timer. When there are timers
     and all are marked deleted, the search finds none and its null pointer is read: None.
     */
    method UsUntilEarliestTimer() returns (us: Option<int>)
      modifies this`clock
      ensures us.None? <==> timers != [] && forall i :: 0 <= i < |timers| ==> timers[i].id == DELETED
      ensures timers == [] ==> us == Some(-1)
      ensures timers != [] && us.Some? ==>
                exists i :: IsEarliest(timers, i) &&
                  us.value == if now(old(clock)) >= timers[i].when then 0 else timers[i].when - now(old(clock))
    {
      if timers == [] {
        return Some(-1);
      }
      var earliest, te := None, 0;
      while te < |timers|
        invariant te <= |timers| && (earliest.Some? ==> 0 <= earliest.value < te)
        invariant earliest.None? ==> forall j :: 0 <= j < te ==> timers[j].id == DELETED
        invariant earliest.Some? ==> IsEarliest(timers[..te], earliest.value)
      {
        assert forall j :: 0 <= j < te ==> timers[..te + 1][j] == timers[..te][j];
        assert timers[..te + 1][te] == timers[te];
        if (earliest.None? || timers[te].when < timers[earliest.value].when) && timers[te].id != DELETED {
          earliest := Some(te);
        }
        te := te + 1;
      }
      assert timers[..|timers|] == timers;
      var t := GetMonotonicUs();
      if earliest.None? {
        return None;
      }
      assert IsEarliest(timers, earliest.value);
      return Some(if t >= timers[earliest.value].when then 0 else timers[earliest.value].when - t);
    }

    /**
     One action of a callback or of a finalizer; a nested pass is the last resort of `depth`. Here and below, `safe` is
     false when a pass went on from a timer that was freed meanwhile; the model stops there.
     */
    method RunAction(action: Action, depth: nat) returns (safe: bool)
      requires Valid()
      modifies this
      ensures Calm(depth) || !action.Reenter? ==> safe
      ensures safe ==> Valid() && stack == old(stack) && CallsBelow(old(calls), calls, depth)
      ensures safe ==> Evolved(old(timers), old(nextId), old(finalized), timers, nextId, finalized)
      ensures depth == 0 || !action.Reenter? ==> finalized == old(finalized)
      ensures safe && depth > 0 && action.Reenter? ==> Swept(old(timers), stack, finalized)
      ensures safe ==> DeletedGone([action], old(nextId), timers) && clock >= old(clock)
      ensures safe && (depth == 0 || !action.Reenter?) ==>
                && Acted(old(timers), old(nextId), now, old(clock), [action], timers, nextId)
                && clock == old(clock) + |Delays([action])|
      decreases depth, 0
    {
      hide ListOk, Evolved, WithNew, Replaced, CallsBelow, QuietFinalizers, PassDone, FreedSerials, Acted, DeletedGone;
      ReenterActs(timers, nextId, now, clock);
      ReenterDeletesNone(timers, nextId);
      DelaysMore([], action);
      EvolvesToItself(timers, nextId, finalized);
      NoCalls(calls, depth);
      match action
      case Add(ms) =>
        AddActs(timers, nextId, finalized, stack, now, clock, ms);
        var _ := CreateTimeEvent(ms);
        return true;
      case Delete(id) =>
        DeleteActsOrMisses(timers, nextId, finalized, stack, now, clock, id);
        var _ := DeleteTimeEvent(id);
        return true;
      case Reenter =>
        if depth == 0 {
          return true;
        }
        ghost var n := nextId;
        var _, visits, r := ProcessTimeEvents(depth - 1);
        if r {
          ReenterDeletesNone(timers, n);
          PassSweeps(old(timers), old(nextId), old(finalized), visits, finalized, stack);
        }
        return r;
    }

    /** What a callback or a finalizer does, one action after the other. */
    method RunActions(actions: seq<Action>, depth: nat) returns (safe: bool)
      requires Valid()
      modifies this
      ensures Calm(depth) || Reenter !in actions ==> safe
      ensures safe ==> Valid() && stack == old(stack) && CallsBelow(old(calls), calls, depth)
      ensures safe ==> Evolved(old(timers), old(nextId), old(finalized), timers, nextId, finalized)
      ensures depth == 0 || Reenter !in actions ==> finalized == old(finalized)
      ensures safe && depth > 0 && Reenter in actions ==> Swept(old(timers), stack, finalized)
      ensures safe ==> DeletedGone(actions, old(nextId), timers) && clock >= old(clock)
      ensures safe && (depth == 0 || Reenter !in actions) ==>
                && Acted(old(timers), old(nextId), now, old(clock), actions, timers, nextId)
                && clock == old(clock) + |Delays(actions)|
      decreases depth, 1
    {
      hide ListOk, Evolved, CallsBelow, Calm, Swept, Acted, DeletedGone, Delays;
      NoActions(timers, nextId, now, clock);
      assert actions[..0] == [] && |Delays([])| == 0 by { NoDelays(); }
      EvolvesToItself(timers, nextId, finalized);
      NoCalls(calls, depth);
      for j := 0 to |actions|
        invariant Valid() && stack == old(stack) && CallsBelow(old(calls), calls, depth)
        invariant depth == 0 || Reenter !in actions ==> finalized == old(finalized)
        invariant depth > 0 && Reenter in actions[..j] ==> Swept(old(timers), stack, finalized)
        invariant Evolved(old(timers), old(nextId), old(finalized), timers, nextId, finalized)
        invariant DeletedGone(actions[..j], old(nextId), timers) && clock >= old(clock) && nextId >= old(nextId)
        invariant depth == 0 || Reenter !in actions ==>
                    && Acted(old(timers), old(nextId), now, old(clock), actions[..j], timers, nextId)
                    && clock == old(clock) + |Delays(actions[..j])|
      {
        ghost var ts, n, f, c := timers, nextId, finalized, calls;
        assert actions[j] in actions && actions[..j + 1] == actions[..j] + [actions[j]];
        var r := RunAction(actions[j], depth);
        if !r {
          AtZeroIsCalm(depth);
          return false;
        }
        if depth > 0 && Reenter in actions[..j] {
          StaysSwept(old(timers), stack, ts, n, f, timers, nextId, finalized);
        } else if depth > 0 && actions[j].Reenter? {
          SweptBefore(old(timers), old(nextId), old(finalized), ts, n, f, timers, nextId, finalized, stack);
        }
        GoneMore(ts, n, f, timers, nextId, finalized, old(nextId), actions[..j], actions[j]);
        DelaysMore(actions[..j], actions[j]);
        if depth == 0 || Reenter !in actions {
          ActedMore(old(timers), old(nextId), now, old(clock), actions[..j], ts, n, actions[j], timers, nextId);
        }
        IdsGrow(ts, n, f, timers, nextId, finalized);
        EvolvedTwice(old(timers), old(nextId), old(finalized), ts, n, f, timers, nextId, finalized);
        CallsBelowTwice(old(calls), c, calls, depth);
      }
      assert actions[..|actions|] == actions;
      return true;
    }

    lemma AtZeroIsCalm(depth: nat)
      ensures depth == 0 ==> Calm(depth)
    {}

    /** The callback of timer `s` runs, with a reference held. */
    method CallBack(s: nat, depth: nat, t: int) returns (retval: int, safe: bool)
      requires Valid() && Has(timers, s)
      modifies this
      ensures Calm(depth) ==> safe
      ensures safe ==> Valid() && stack == old(stack) && Has(timers, s)
      ensures depth == 0 ==> finalized == old(finalized)
      ensures safe ==> Evolved(old(timers), old(nextId), old(finalized), timers, nextId, finalized)
      ensures safe ==> CallsBelow(old(calls), calls, depth + 1)
      ensures safe ==> CalledAt(calls, depth) == CalledAt(old(calls), depth) + [s]
      ensures safe ==> retval == proc(|old(calls)|).retval
      ensures safe ==> |calls| > |old(calls)| &&
                       calls[|old(calls)|] == Call(s, depth, old(timers)[Place(old(timers), s)].when, t)
      ensures safe ==> DeletedGone(proc(|old(calls)|).actions, old(nextId), timers) && clock >= old(clock)
      ensures safe && (depth == 0 || Reenter !in proc(|old(calls)|).actions) ==>
                && Acted(old(timers), old(nextId), now, old(clock), proc(|old(calls)|).actions, timers, nextId)
                && clock == old(clock) + |Delays(proc(|old(calls)|).actions)|
      decreases depth, 2
    {
      hide ListOk, Evolved, CallsBelow, Calm, CalledAt, Replaced, Has, Place, Acted, DeletedGone, Delays;
      ghost var ts, n, f, c := timers, nextId, finalized, calls;
      var i := Place(timers, s);
      var p := proc(|calls|);
      ghost var i0, x0 := i, timers[i].(refcount := timers[i].refcount + 1);
      PushKeeps(timers, nextId, finalized, stack, i);
      InOrder(timers, nextId, finalized, stack);
      CallLogged(calls, Call(s, depth, timers[i].when, t));
      calls := calls + [Call(s, depth, timers[i].when, t)];
      timers := Replaced(timers, i, timers[i].(refcount := timers[i].refcount + 1));
      stack := stack + [s];
      ghost var ts1, c1, held := timers, calls, stack;
      safe := RunActions(p.actions, depth);
      retval := p.retval;
      if !safe {
        return;
      }
      EvolvedTwice(ts, n, f, ts1, n, f, timers, nextId, finalized);
      CallReturned(c, c1, calls, depth);
      LogStays(c1, calls, depth);
      ghost var ts2 := timers;
      StillHeld(timers, nextId, finalized, held, s);
      i := Place(timers, s);
      PopKeeps(timers, nextId, finalized, old(stack), i);
      InOrder(timers, nextId, finalized, held);
      if depth == 0 || Reenter !in p.actions {
        ActedWithin(ts, i0, x0, n, now, clock - |Delays(p.actions)|, p.actions, timers, nextId, i,
                    timers[i].(refcount := timers[i].refcount - 1));
      }
      timers := Replaced(timers, i, timers[i].(refcount := timers[i].refcount - 1));
      IdsGrow(ts, n, f, ts2, nextId, finalized);
      GoneStill(ts2, nextId, finalized, timers, nextId, finalized, n, p.actions);
      stack := old(stack);
      EvolvedTwice(ts, n, f, ts2, nextId, finalized, timers, nextId, finalized);
    }

    /** Firing timer `s`, which is due at time `t`; the time afterwards. */
    method Fire(s: nat, depth: nat, t: int) returns (after: int, safe: bool)
      requires Valid() && Has(timers, s)
      modifies this
      ensures Calm(depth) ==> safe
      ensures safe ==> Valid() && stack == old(stack) && Has(timers, s)
      ensures depth == 0 ==> finalized == old(finalized)
      ensures safe ==> Evolved(old(timers), old(nextId), old(finalized), timers, nextId, finalized)
      ensures safe ==> CallsBelow(old(calls), calls, depth + 1)
      ensures safe ==> CalledAt(calls, depth) == CalledAt(old(calls), depth) + [s]
      ensures safe ==>
                var r := proc(|old(calls)|).retval; var x := timers[Place(timers, s)];
                if r == NOMORE then x.id == DELETED else x.when == after + r * 1000
      ensures safe ==> clock > old(clock) && after == now(clock - 1)
      ensures safe ==> |calls| > |old(calls)| &&
                       calls[|old(calls)|] == Call(s, depth, old(timers)[Place(old(timers), s)].when, t)
      ensures safe ==> DeletedGone(proc(|old(calls)|).actions, old(nextId), timers)
      ensures safe && (depth == 0 || Reenter !in proc(|old(calls)|).actions) ==>
                OthersKept(old(timers), old(nextId), proc(|old(calls)|).actions, timers, s)
      decreases depth, 3
    {
      hide ListOk, Evolved, CallsBelow, Calm, CalledAt, Replaced, Has, Place, Acted, DeletedGone, Delays, OthersKept;
      ghost var p := proc(|calls|);
      var retval;
      retval, safe := CallBack(s, depth, t);
      after := t;
      if !safe {
        return;
      }
      after := GetMonotonicUs();
      var i := Place(timers, s);
      ghost var ts := timers;
      var x := if retval != NOMORE then timers[i].(when := after + retval * 1000) else timers[i].(id := DELETED);
      ReplaceKeeps(timers, nextId, finalized, stack, i, x);
      ReplacedThere(timers, nextId, finalized, stack, i, x);
      InOrder(timers, nextId, finalized, stack);
      if depth == 0 || Reenter !in p.actions {
        OthersAfterReplace(old(timers), old(nextId), now, old(clock), p.actions, ts, nextId, i, x);
      }
      IdsGrow(old(timers), old(nextId), old(finalized), ts, nextId, finalized);
      EvolvedTwice(old(timers), old(nextId), old(finalized), ts, nextId, finalized, Replaced(ts, i, x), nextId, finalized);
      timers := Replaced(timers, i, x);
      GoneStill(ts, nextId, finalized, timers, nextId, finalized, old(nextId), p.actions);
    }

    /** Unlinking timer `s`, deleted and without references, finalizing and freeing it; the time afterwards. */
    method Free(s: nat, depth: nat) returns (after: int, safe: bool)
      requires Valid() && Has(timers, s) && timers[Place(timers, s)].refcount == 0
      modifies this
      ensures Calm(depth) || Reenter !in finalizer(|old(finalized)|) ==> safe
      ensures safe ==> Valid() && stack == old(stack) && s in finalized && s !in stack
      ensures depth == 0 || Reenter !in finalizer(|old(finalized)|) ==> finalized == old(finalized) + [s]
      ensures safe ==> Evolved(old(timers), old(nextId), old(finalized), timers, nextId, finalized)
      ensures safe ==> CallsBelow(old(calls), calls, depth)
      ensures safe && depth > 0 && Reenter in finalizer(|old(finalized)|) ==> Swept(old(timers), stack, finalized)
      ensures safe ==> clock > old(clock) && after == now(clock - 1)
      ensures safe ==> |finalized| > |old(finalized)| && finalized[|old(finalized)|] == s
      ensures safe ==> DeletedGone(finalizer(|old(finalized)|), old(nextId), timers)
      ensures safe && (depth == 0 || Reenter !in finalizer(|old(finalized)|)) ==>
                OthersKept(old(timers), old(nextId), finalizer(|old(finalized)|), timers, s)
      decreases depth, 3
    {
      hide ListOk, Evolved, CallsBelow, Calm, Has, Place, WithoutAt, Swept, Acted, DeletedGone, Delays, OthersKept;
      InOrder(timers, nextId, finalized, stack);
      var i := Place(timers, s);
      FreeKeeps(timers, nextId, finalized, stack, i);
      timers := WithoutAt(timers, i);
      var k := |finalized|;
      finalized := finalized + [s];
      ghost var ts, f := timers, finalized;
      after := 0;
      safe := RunActions(finalizer(k), depth);
      if !safe {
        return;
      }
      EvolvedTwice(old(timers), old(nextId), old(finalized), ts, old(nextId), f, timers, nextId, finalized);
      StaysGone(ts, old(nextId), f, timers, nextId, finalized, s);
      IdsGrow(ts, old(nextId), f, timers, nextId, finalized);
      if depth == 0 || Reenter !in finalizer(k) {
        OthersAfterFree(old(timers), i, old(nextId), now, old(clock), finalizer(k), timers, nextId);
      }
      if depth > 0 && Reenter in finalizer(k) {
        SweptWithFreed(old(timers), old(nextId), old(finalized), stack, i, finalized);
      }
      after := GetMonotonicUs();
    }

    /** No finalizer frees more than the timer it belongs to. */
    lemma CalmFinalizer(depth: nat, n: nat)
      ensures Calm(depth) ==> depth == 0 || Reenter !in finalizer(n)
    {}

    /**
     One round of the loop of processTimeEvents, standing on `s`: what was found there, and the next timer. When `s` and
     its successor are both deleted, and no callback of theirs is running, the pointer saved to the successor dangles
     exactly if the finalizer of `s` starts a pass.
     */
    method Reach(s: nat, maxId: int, depth: nat, t: int) returns (v: Visit, next: Option<nat>, after: int, safe: bool)
      requires Valid() && Has(timers, s) && s <= maxId
      modifies this
      ensures Calm(depth) ==> safe
      ensures safe ==> Valid() && stack == old(stack)
      ensures depth == 0 ==> finalized == old(finalized) + if v.dead && s !in old(stack) then [s] else []
      ensures safe ==> Evolved(old(timers), old(nextId), old(finalized), timers, nextId, finalized)
      ensures safe ==> CallsBelow(old(calls), calls, depth + 1)
      ensures safe ==> CalledAt(calls, depth) == CalledAt(old(calls), depth) + if v.fired then [s] else []
      ensures safe ==> Nearest(timers, s, next)
      ensures v.serial == s && (v.dead <==> Dead(old(timers), s)) && v.now == t
      ensures v.when == old(timers)[Place(old(timers), s)].when
      ensures v.fired <==> !v.dead && v.when <= v.now
      ensures safe ==> v.dead && s !in stack ==> s in finalized
      ensures BothDoomed(old(timers), old(stack), s) ==>
                (safe <==> depth == 0 || Reenter !in finalizer(|old(finalized)|))
      ensures safe ==> NthRight(v, stack, calls, finalized)
      ensures safe ==> DeletedGone(ActionsAt(v, stack, proc, finalizer), old(nextId), timers)
      ensures safe && depth == 0 ==> OthersKept(old(timers), old(nextId), ActionsAt(v, stack, proc, finalizer), timers, s)
      ensures safe ==> if Idle(v, stack) then after == t && clock == old(clock) else clock > old(clock) && after == now(clock - 1)
      decreases depth, 4
    {
      hide ListOk, Evolved, CallsBelow, Calm, CalledAt, Replaced, Has, Place, NextOf, Swept, BothDoomed, DeletedGone, OthersKept;
      NothingDone(timers, nextId, s);
      DoomedParts(timers, stack, s);
      AtZeroIsCalm(depth);
      var x := timers[Place(timers, s)];
      v := Visit(s, x.id == DELETED, x.when, t, x.id != DELETED && x.when <= t,
                 if x.id == DELETED then |finalized| else |calls|);
      after, safe := t, true;
      EvolvesToItself(timers, nextId, finalized);
      NoCalls(calls, depth + 1);
      assert CalledAt(calls, depth) + [] == CalledAt(calls, depth);
      if x.id == DELETED {
        next := NextOf(timers, s);
        NextIsNearest(timers, nextId, finalized, stack, s);
        if x.refcount > 0 {
          ReferencedIsHeld(timers, nextId, finalized, stack, s);
          return;
        }
        CalmFinalizer(depth, |finalized|);
        IsUnheld(timers, nextId, finalized, stack, s);
        after, safe := Free(s, depth);
        if !safe {
          return;
        }
        DeeperCalls(old(calls), calls, depth);
        SavedNextIsNearest(old(timers), old(nextId), old(finalized), timers, nextId, finalized, stack, s, next);
        if BothDoomed(old(timers), stack, s) && depth > 0 && Reenter in finalizer(|old(finalized)|) {
          SweptIsGone(old(timers), timers, nextId, finalized, stack, next.value);
        }
        safe := next.None? || Has(timers, next.value);
        return;
      }
      if s <= maxId && x.when <= t {
        after, safe := Fire(s, depth, t);
        if !safe {
          next := None;
          return;
        }
      }
      next := NextOf(timers, s);
      NextIsNearest(timers, nextId, finalized, stack, s);
    }

    /**
     processTimeEvents. Of the timers in the list at the start, each is reached once, newest first, unless it was freed
     before; those live and due when reached are fired, and no others. Nothing created during the pass is reached. When
     nothing nests, those deleted when reached are freed unless a callback of theirs is running, and no others. No
     freed timer is ever gone on from if no finalizer starts a pass; one is if the first two timers are deleted and the
     first finalizer starts one.
     */
    method ProcessTimeEvents(depth: nat) returns (processed: nat, visits: seq<Visit>, safe: bool)
      requires Valid()
      modifies this
      ensures Calm(depth) ==> safe
      ensures safe ==> Valid() && stack == old(stack)
      ensures depth == 0 ==> finalized == old(finalized) + FreedSerials(visits, stack)
      ensures safe ==> Evolved(old(timers), old(nextId), old(finalized), timers, nextId, finalized)
      ensures safe ==> PassDone(old(timers), visits, finalized, stack)
      ensures safe ==> processed == |FiredSerials(visits)|
      ensures safe ==> CallsBelow(old(calls), calls, depth + 1)
      ensures safe ==> CalledAt(calls, depth) == CalledAt(old(calls), depth) + FiredSerials(visits)
      ensures old(timers) != [] && BothDoomed(old(timers), old(stack), old(timers)[0].serial) ==>
                (depth > 0 && Reenter in finalizer(|old(finalized)|) ==> !safe)
      ensures safe ==> NumberedRight(visits, stack, calls, finalized)
      ensures safe ==> DeletionsSeen(visits, stack, proc, finalizer)
      ensures safe ==> DeletionsDone(old(nextId), visits, stack, proc, finalizer, timers)
      ensures safe ==> Clocked(visits, stack, now, old(clock), clock) && clock > old(clock)
      ensures safe && depth == 0 ==> AllFoundAs(old(timers), visits, stack, proc, finalizer)
      decreases depth, 5
    {
      hide NumberedRight, DeletionsSeen, DeletionsDone, Clocked, NextClocked, AllFoundAs, Acting, NthRight, ActionsAt,
        DeletedGone, OthersKept, Idle;
      hide ListOk, Evolved, CallsBelow, Calm, CalledAt, Has, Nearest, Passing, PassDone, FiredSerials, FreedSerials, BothDoomed;
      ghost var doomed := timers != [] && BothDoomed(timers, stack, timers[0].serial) && depth > 0
                          && Reenter in finalizer(|finalized|);
      ghost var ts0, n0, f0 := timers, nextId, finalized;
      PassStarts(timers, nextId, finalized, stack);
      var te := HeadOf(timers);
      var maxId := nextId - 1;
      var t := GetMonotonicUs();
      processed, visits, safe := 0, [], true;
      EvolvesToItself(timers, nextId, finalized);
      NoCalls(calls, depth + 1);
      NothingFired(calls, depth);
      NothingFreed(finalized, stack);
      AtZeroIsCalm(depth);
      NothingVisited(timers, nextId, stack, proc, finalizer, calls, finalized, now, clock, te);
      while te.Some?
        invariant Valid() && stack == old(stack) && safe && clock > old(clock)
        invariant Evolved(ts0, n0, f0, timers, nextId, finalized)
        invariant Passing(ts0, visits, te, timers, finalized, stack)
        invariant depth == 0 ==> finalized == f0 + FreedSerials(visits, stack)
        invariant doomed ==> visits == [] && te == HeadOf(ts0) && timers == ts0 && finalized == f0
        invariant processed == |FiredSerials(visits)| && CallsBelow(old(calls), calls, depth + 1)
        invariant CalledAt(calls, depth) == CalledAt(old(calls), depth) + FiredSerials(visits)
        invariant Acting(depth, ts0, n0, visits, stack, proc, finalizer, calls, timers, finalized, te)
        invariant Clocked(visits, stack, now, old(clock), clock) && NextClocked(visits, stack, now, old(clock), clock, t)
        decreases if te.Some? then te.value + 1 else 0
      {
        ghost var ts, n, f, c, k := timers, nextId, finalized, calls, clock;
        StandsOn(ts0, n0, f0, stack, visits, te.value, timers, finalized);
        var v, next, after, r := Reach(te.value, maxId, depth, t);
        if !r {
          return processed, visits, false;
        }
        NextIsOlder(timers, v.serial, next);
        PassGoesOn(ts0, n0, f0, visits, v, ts, n, f, timers, nextId, finalized, stack, next);
        EvolvedTwice(ts0, n0, f0, ts, n, f, timers, nextId, finalized);
        CallsBelowTwice(old(calls), c, calls, depth + 1);
        FiredMore(visits, v, CalledAt(old(calls), depth));
        FreedMore(f0, visits, v, stack);
        IdsGrow(ts0, n0, f0, ts, n, f);
        PassActs(depth, ts0, n0, visits, v, stack, proc, finalizer, c, ts, n, f, calls, timers, nextId, finalized, next);
        PassClocks(visits, v, stack, now, old(clock), k, clock, after);
        processed := if v.fired then processed + 1 else processed;
        visits, te, t := visits + [v], next, after;
      }
      PassEnds(ts0, visits, timers, finalized, stack);
      PassHasActed(depth, ts0, n0, visits, stack, proc, finalizer, calls, timers, finalized);
    }
  }

  // ---- what the actions of a pass amount to ----

  lemma NothingVisited(
    ts: seq<Timer>, n0: nat, stack: seq<nat>, proc: nat -> Proc, finalizer: nat -> seq<Action>, calls: seq<Call>,
    finalized: seq<nat>, now: nat -> int, clock: nat, te: Option<nat>)
    ensures forall depth: nat :: Acting(depth, ts, n0, [], stack, proc, finalizer, calls, ts, finalized, te)
    ensures clock > 0 ==> Clocked([], stack, now, clock - 1, clock) && NextClocked([], stack, now, clock - 1, clock, now(clock - 1))
  {}

  /** What a pass standing on `te` has done so far. */
  ghost predicate Acting(
    depth: nat, start: seq<Timer>, n0: nat, visits: seq<Visit>, stack: seq<nat>, proc: nat -> Proc,
    finalizer: nat -> seq<Action>, calls: seq<Call>, ts: seq<Timer>, finalized: seq<nat>, te: Option<nat>)
  {
    && NumberedRight(visits, stack, calls, finalized)
    && DeletionsSeen(visits, stack, proc, finalizer) && DeletionsDone(n0, visits, stack, proc, finalizer, ts)
    && (depth == 0 ==> AllFoundAs(start, visits, stack, proc, finalizer))
    && (depth == 0 ==> RestUnchanged(start, n0, visits, stack, proc, finalizer, ts, te))
  }

  lemma PassHasActed(
    depth: nat, start: seq<Timer>, n0: nat, visits: seq<Visit>, stack: seq<nat>, proc: nat -> Proc,
    finalizer: nat -> seq<Action>, calls: seq<Call>, ts: seq<Timer>, finalized: seq<nat>)
    requires Acting(depth, start, n0, visits, stack, proc, finalizer, calls, ts, finalized, None)
    ensures NumberedRight(visits, stack, calls, finalized)
    ensures DeletionsSeen(visits, stack, proc, finalizer) && DeletionsDone(n0, visits, stack, proc, finalizer, ts)
    ensures depth == 0 ==> AllFoundAs(start, visits, stack, proc, finalizer)
  {}

  /** One timer further. */
  lemma PassActs(
    depth: nat, start: seq<Timer>, n0: nat, visits: seq<Visit>, v: Visit, stack: seq<nat>, proc: nat -> Proc,
    finalizer: nat -> seq<Action>, calls: seq<Call>, ts: seq<Timer>, n: nat, f: seq<nat>, calls': seq<Call>,
    ts': seq<Timer>, n': nat, f': seq<nat>, next: Option<nat>)
    requires Acting(depth, start, n0, visits, stack, proc, finalizer, calls, ts, f, Some(v.serial))
    requires Evolved(ts, n, f, ts', n', f') && CallsBelow(calls, calls', depth + 1)
    requires v.serial < n0 <= n && Has(ts, v.serial) && (v.dead <==> Dead(ts, v.serial)) && v.when == ts[Place(ts, v.serial)].when
    requires NthRight(v, stack, calls', f') && DeletedGone(ActionsAt(v, stack, proc, finalizer), n, ts')
    requires depth == 0 ==> OthersKept(ts, n, ActionsAt(v, stack, proc, finalizer), ts', v.serial)
    requires next.Some? ==> next.value < v.serial
    ensures Acting(depth, start, n0, visits + [v], stack, proc, finalizer, calls', ts', f', next)
  {
    hide Has, Dead, Place, Evolved, NumberedRight, DeletionsSeen, DeletionsDone, AllFoundAs, RestUnchanged, NthRight,
      ActionsAt, DeletedGone, OthersKept, CallsBelow;
    IdsGrow(ts, n, f, ts', n', f');
    PassNumbers(visits, v, stack, calls, f, calls', f', depth);
    PassDeletes(ts, n, f, ts', n', f', n0, visits, v, stack, proc, finalizer);
    if depth == 0 {
      PassFinds(start, n0, visits, v, stack, proc, finalizer, ts, n, ts', next);
    }
  }

  /** The time with which the next timer is reached. */
  ghost predicate NextClocked(visits: seq<Visit>, stack: seq<nat>, now: nat -> int, clock: nat, clock': nat, t: int) {
    && clock < clock'
    && if visits == [] then t == now(clock)
       else if Idle(visits[|visits| - 1], stack) then t == visits[|visits| - 1].now
       else ReadBetween(now, clock + 1, clock', t)
  }

  lemma PassClocks(
    visits: seq<Visit>, v: Visit, stack: seq<nat>, now: nat -> int, start: nat, clock: nat, clock': nat, after: int)
    requires Clocked(visits, stack, now, start, clock) && NextClocked(visits, stack, now, start, clock, v.now)
    requires if Idle(v, stack) then after == v.now && clock' == clock else clock' > clock && after == now(clock' - 1)
    ensures Clocked(visits + [v], stack, now, start, clock')
    ensures NextClocked(visits + [v], stack, now, start, clock', after)
  {
    hide Idle;
    var all := visits + [v];
    forall j | 0 < j < |all|
      ensures if Idle(all[j - 1], stack) then all[j].now == all[j - 1].now
              else ReadBetween(now, start + 1, clock', all[j].now) {
      assert all[j - 1] == visits[j - 1];
      if j < |visits| {
        assert all[j] == visits[j];
      }
    }
  }

  lemma NthStays(v: Visit, stack: seq<nat>, calls: seq<Call>, f: seq<nat>, calls': seq<Call>, f': seq<nat>)
    requires NthRight(v, stack, calls, f) && calls <= calls' && f <= f'
    ensures NthRight(v, stack, calls', f')
  {}

  lemma PassNumbers(
    visits: seq<Visit>, v: Visit, stack: seq<nat>, calls: seq<Call>, f: seq<nat>, calls': seq<Call>, f': seq<nat>, depth: nat)
    requires NumberedRight(visits, stack, calls, f) && NthRight(v, stack, calls', f')
    requires CallsBelow(calls, calls', depth + 1) && f <= f'
    ensures NumberedRight(visits + [v], stack, calls', f')
  {
    hide NthRight;
    forall i | 0 <= i < |visits| + 1 ensures NthRight((visits + [v])[i], stack, calls', f') {
      if i < |visits| {
        NthStays(visits[i], stack, calls, f, calls', f');
      }
    }
  }

  lemma DeletedByMore(
    visits: seq<Visit>, v: Visit, stack: seq<nat>, proc: nat -> Proc, finalizer: nat -> seq<Action>, s: nat)
    ensures DeletedBy(visits + [v], stack, proc, finalizer, s) <==>
            DeletedBy(visits, stack, proc, finalizer, s) || Delete(s) in ActionsAt(v, stack, proc, finalizer)
  {
    hide ActionsAt;
    var all := visits + [v];
    if i :| 0 <= i < |visits| && Delete(s) in ActionsAt(visits[i], stack, proc, finalizer) {
      assert all[i] == visits[i];
    }
    assert all[|visits|] == v;
  }

  lemma PassDeletes(
    ts: seq<Timer>, n: nat, f: seq<nat>, ts': seq<Timer>, n': nat, f': seq<nat>, n0: nat, visits: seq<Visit>, v: Visit,
    stack: seq<nat>, proc: nat -> Proc, finalizer: nat -> seq<Action>)
    requires Evolved(ts, n, f, ts', n', f') && n0 <= n && v.serial < n0 && Has(ts, v.serial) && (v.dead <==> Dead(ts, v.serial))
    requires DeletionsSeen(visits, stack, proc, finalizer) && DeletionsDone(n0, visits, stack, proc, finalizer, ts)
    requires DeletedGone(ActionsAt(v, stack, proc, finalizer), n, ts')
    ensures DeletionsSeen(visits + [v], stack, proc, finalizer)
    ensures DeletionsDone(n0, visits + [v], stack, proc, finalizer, ts')
  {
    hide Has, Dead, Evolved, ActionsAt, DeletedBy;
    var all := visits + [v];
    forall j | 0 <= j < |all| && DeletedBy(all[..j], stack, proc, finalizer, all[j].serial) ensures all[j].dead {
      assert all[..j] == visits[..j];
      assert visits[..|visits|] == visits;
    }
    forall s: nat | s < n0 && DeletedBy(all, stack, proc, finalizer, s) ensures Gone(ts', s) {
      DeletedByMore(visits, v, stack, proc, finalizer, s);
      if DeletedBy(visits, stack, proc, finalizer, s) {
        StaysGoneAfter(ts, n, f, ts', n', f', s);
      }
    }
  }

  lemma UnchangedMore(
    start: seq<Timer>, visits: seq<Visit>, v: Visit, stack: seq<nat>, proc: nat -> Proc, finalizer: nat -> seq<Action>,
    ts: seq<Timer>, ts': seq<Timer>, s: nat)
    requires Unchanged(start, visits, stack, proc, finalizer, ts, s)
    requires KeptBut(ts, ActionsAt(v, stack, proc, finalizer), ts', s)
    ensures Unchanged(start, visits + [v], stack, proc, finalizer, ts', s)
  {
    hide Has, Dead, Place, ActionsAt, DeletedBy;
    DeletedByMore(visits, v, stack, proc, finalizer, s);
  }

  lemma PassFinds(
    start: seq<Timer>, n0: nat, visits: seq<Visit>, v: Visit, stack: seq<nat>, proc: nat -> Proc,
    finalizer: nat -> seq<Action>, ts: seq<Timer>, n: nat, ts': seq<Timer>, next: Option<nat>)
    requires AllFoundAs(start, visits, stack, proc, finalizer)
    requires RestUnchanged(start, n0, visits, stack, proc, finalizer, ts, Some(v.serial))
    requires v.serial < n0 <= n && Has(ts, v.serial) && (v.dead <==> Dead(ts, v.serial)) && v.when == ts[Place(ts, v.serial)].when
    requires OthersKept(ts, n, ActionsAt(v, stack, proc, finalizer), ts', v.serial)
    requires next.Some? ==> next.value < v.serial
    ensures AllFoundAs(start, visits + [v], stack, proc, finalizer)
    ensures RestUnchanged(start, n0, visits + [v], stack, proc, finalizer, ts', next)
  {
    hide Has, Dead, Place, ActionsAt, DeletedBy, KeptBut;
    var all := visits + [v];
    assert Unchanged(start, visits, stack, proc, finalizer, ts, v.serial);
    forall j | 0 <= j < |all| ensures FoundAs(start, all[..j], stack, proc, finalizer, all[j]) {
      assert all[..j] == visits[..j];
      assert visits[..|visits|] == visits;
    }
    if next.Some? {
      forall s: nat | s < n0 && s <= next.value ensures Unchanged(start, all, stack, proc, finalizer, ts', s) {
        assert KeptBut(ts, ActionsAt(v, stack, proc, finalizer), ts', s);
        UnchangedMore(start, visits, v, stack, proc, finalizer, ts, ts', s);
      }
    }
  }

  lemma IdsGrow(ts: seq<Timer>, n: nat, f: seq<nat>, ts': seq<Timer>, n': nat, f': seq<nat>)
    requires Evolved(ts, n, f, ts', n', f')
    ensures n <= n' && f <= f'
  {}

  lemma InOrder(ts: seq<Timer>, n: nat, finalized: seq<nat>, stack: seq<nat>)
    requires ListOk(ts, n, finalized, stack)
    ensures NewestFirst(ts)
  {}

  lemma NoDelays()
    ensures Delays([]) == []
  {}

  lemma LogStays(calls: seq<Call>, calls': seq<Call>, depth: nat)
    requires CallsBelow(calls, calls', depth)
    ensures calls <= calls'
  {}

  lemma DeleteActsOrMisses(
    ts: seq<Timer>, n: nat, finalized: seq<nat>, stack: seq<nat>, now: nat -> int, clock: nat, id: int)
    requires ListOk(ts, n, finalized, stack)
    ensures (forall i :: 0 <= i < |ts| ==> ts[i].id != id) ==>
              Acted(ts, n, now, clock, [Delete(id)], ts, n) && DeletedGone([Delete(id)], n, ts)
    ensures forall i: nat :: FirstWith(ts, i, id) ==>
              var ts' := Replaced(ts, i, ts[i].(id := DELETED));
              Acted(ts, n, now, clock, [Delete(id)], ts', n) && DeletedGone([Delete(id)], n, ts')
  {
    hide ListOk, Acted, DeletedGone, Replaced;
    if forall i :: 0 <= i < |ts| ==> ts[i].id != id {
      DeleteMisses(ts, n, finalized, stack, now, clock, id);
    }
    forall i: nat | FirstWith(ts, i, id)
      ensures var ts' := Replaced(ts, i, ts[i].(id := DELETED));
              Acted(ts, n, now, clock, [Delete(id)], ts', n) && DeletedGone([Delete(id)], n, ts') {
      DeleteActs(ts, n, finalized, stack, now, clock, i, id);
    }
  }

  lemma PassStarts(ts: seq<Timer>, nextId: nat, finalized: seq<nat>, stack: seq<nat>)
    requires ListOk(ts, nextId, finalized, stack)
    ensures Passing(ts, [], HeadOf(ts), ts, finalized, stack)
  {
    PassBegins(ts, finalized, stack);
  }

  lemma ReplacedThere(ts: seq<Timer>, nextId: nat, finalized: seq<nat>, stack: seq<nat>, i: nat, x: Timer)
    requires ListOk(ts, nextId, finalized, stack) && i < |ts| && x.serial == ts[i].serial
    ensures Has(Replaced(ts, i, x), x.serial) && Replaced(ts, i, x)[Place(Replaced(ts, i, x), x.serial)] == x
  {
    ReplacedHas(ts, i, x);
    PlaceIs(Replaced(ts, i, x), i);
  }

  lemma NextIsNearest(ts: seq<Timer>, nextId: nat, finalized: seq<nat>, stack: seq<nat>, s: nat)
    requires ListOk(ts, nextId, finalized, stack) && Has(ts, s)
    ensures Nearest(ts, s, NextOf(ts, s))
  {
    hide Place, Has;
    NextSkipsNothing(ts, s);
  }

  lemma NextIsOlder(ts: seq<Timer>, s: nat, next: Option<nat>)
    requires Nearest(ts, s, next)
    ensures next.Some? ==> next.value < s
  {}

  /** A pass does not free what has references: those are timers whose callbacks are running. */
  lemma ReferencedIsHeld(ts: seq<Timer>, nextId: nat, finalized: seq<nat>, stack: seq<nat>, s: nat)
    requires ListOk(ts, nextId, finalized, stack) && Has(ts, s) && ts[Place(ts, s)].refcount > 0
    ensures s in stack
  {
    OccursIn(stack, s);
  }

  lemma IsUnheld(ts: seq<Timer>, nextId: nat, finalized: seq<nat>, stack: seq<nat>, s: nat)
    requires ListOk(ts, nextId, finalized, stack) && Has(ts, s) && ts[Place(ts, s)].refcount == 0
    ensures s !in stack
  {
    OccursIn(stack, s);
  }

  lemma DeeperCalls(calls: seq<Call>, calls': seq<Call>, depth: nat)
    requires CallsBelow(calls, calls', depth)
    ensures CallsBelow(calls, calls', depth + 1) && CalledAt(calls', depth) == CalledAt(calls, depth)
    ensures CalledAt(calls', depth) + [] == CalledAt(calls', depth)
  {
    DeeperCallsElsewhere(calls, calls', depth);
  }

  /**
   The successor saved before a timer was freed is the nearest timer afterwards exactly if it is still there; and it is
   if the finalizer freed nothing else.
   */
  lemma SavedNextIsNearest(
    ts: seq<Timer>, nextId: nat, finalized: seq<nat>, ts': seq<Timer>, nextId': nat, finalized': seq<nat>,
    stack: seq<nat>, s: nat, next: Option<nat>)
    requires ListOk(ts, nextId, finalized, stack) && ListOk(ts', nextId', finalized', stack) && Has(ts, s)
    requires Evolved(ts, nextId, finalized, ts', nextId', finalized') && s in finalized'
    requires Nearest(ts, s, next)
    ensures Nearest(ts', s, next) <==> next.None? || Has(ts', next.value)
    ensures finalized' == finalized + [s] ==> Nearest(ts', s, next)
  {
    hide Has, Place, Dead;
  }

  lemma StandsOn(
    ts0: seq<Timer>, n0: nat, f0: seq<nat>, stack: seq<nat>, visits: seq<Visit>, s: nat, ts: seq<Timer>, finalized: seq<nat>)
    requires Passing(ts0, visits, Some(s), ts, finalized, stack) && ListOk(ts0, n0, f0, stack)
    ensures Has(ts, s) && Has(ts0, s) && s < n0
  {}

  lemma PassGoesOn(
    start: seq<Timer>, n0: nat, f0: seq<nat>, visits: seq<Visit>, v: Visit, ts: seq<Timer>, nextId: nat,
    finalized: seq<nat>, ts': seq<Timer>, nextId': nat, finalized': seq<nat>, stack: seq<nat>, next: Option<nat>)
    requires Passing(start, visits, Some(v.serial), ts, finalized, stack)
    requires (v.fired <==> !v.dead && v.when <= v.now) && (v.dead && v.serial !in stack ==> v.serial in finalized')
    requires v.dead <==> Dead(ts, v.serial)
    requires ListOk(start, n0, f0, stack) && Evolved(start, n0, f0, ts, nextId, finalized)
    requires Evolved(ts, nextId, finalized, ts', nextId', finalized') && ListOk(ts', nextId', finalized', stack)
    requires Nearest(ts', v.serial, next)
    ensures Passing(start, visits + [v], next, ts', finalized', stack)
  {
    hide Passing, Evolved, Nearest, Dead, Conserved;
    PassStep(start, visits, v, ts, nextId, finalized, ts', nextId', finalized', stack, n0, f0, next);
  }

  lemma NothingFired(calls: seq<Call>, depth: nat)
    ensures FiredSerials([]) == [] && CalledAt(calls, depth) + [] == CalledAt(calls, depth)
  {}

  lemma NothingFreed(finalized: seq<nat>, stack: seq<nat>)
    ensures finalized + FreedSerials([], stack) == finalized
  {}

  lemma FreedMore(finalized: seq<nat>, visits: seq<Visit>, v: Visit, stack: seq<nat>)
    ensures finalized + FreedSerials(visits + [v], stack) ==
            finalized + FreedSerials(visits, stack) + if v.dead && v.serial !in stack then [v.serial] else []
  {
    assert (visits + [v])[..|visits|] == visits;
  }

  lemma FiredMore(visits: seq<Visit>, v: Visit, called: seq<nat>)
    ensures var now := if v.fired then [v.serial] else [];
            && FiredSerials(visits + [v]) == FiredSerials(visits) + now
            && called + FiredSerials(visits) + now == called + FiredSerials(visits + [v])
  {
    assert (visits + [v])[..|visits|] == visits;
  }

  lemma NoCalls(calls: seq<Call>, depth: nat)
    ensures CallsBelow(calls, calls, depth)
  {}

  lemma CallLogged(calls: seq<Call>, c: Call)
    ensures CalledAt(calls + [c], c.depth) == CalledAt(calls, c.depth) + [c.serial]
    ensures CallsBelow(calls, calls + [c], c.depth + 1)
  {
    assert (calls + [c])[..|calls|] == calls;
  }

  lemma CallReturned(calls: seq<Call>, calls1: seq<Call>, calls2: seq<Call>, depth: nat)
    requires CallsBelow(calls, calls1, depth + 1) && CallsBelow(calls1, calls2, depth)
    ensures CallsBelow(calls, calls2, depth + 1) && CalledAt(calls2, depth) == CalledAt(calls1, depth)
  {
    DeeperCallsElsewhere(calls1, calls2, depth);
  }

  lemma StillHeld(ts: seq<Timer>, nextId: nat, finalized: seq<nat>, stack: seq<nat>, s: nat)
    requires ListOk(ts, nextId, finalized, stack) && s in stack
    ensures Has(ts, s)
  {}

  // ---- what a pass amounts to ----

  lemma {:induction false} FiredAreVisited(visits: seq<Visit>, s: nat)
    requires s in FiredSerials(visits)
    ensures exists i :: 0 <= i < |visits| && visits[i].serial == s && visits[i].fired
  {
    var n := |visits| - 1;
    if s in FiredSerials(visits[..n]) {
      FiredAreVisited(visits[..n], s);
      var i :| 0 <= i < n && visits[..n][i].serial == s && visits[..n][i].fired;
      assert visits[i].serial == s;
    } else {
      assert visits[n].serial == s;
    }
  }

  lemma {:induction false} FiredDescend(visits: seq<Visit>)
    requires forall i, j :: 0 <= i < j < |visits| ==> visits[i].serial > visits[j].serial
    ensures var f := FiredSerials(visits); forall i, j :: 0 <= i < j < |f| ==> f[i] > f[j]
  {
    if visits != [] {
      var n := |visits| - 1;
      FiredDescend(visits[..n]);
      var f := FiredSerials(visits[..n]);
      forall i | 0 <= i < |f| ensures f[i] > visits[n].serial {
        FiredAreVisited(visits[..n], f[i]);
      }
    }
  }

  /** A pass fires no timer twice, none created after it started, none deleted before, and frees all it found deleted. */
  lemma FiredOnceAndOld(start: seq<Timer>, n0: nat, f0: seq<nat>, visits: seq<Visit>, finalized: seq<nat>, stack: seq<nat>)
    requires ListOk(start, n0, f0, stack) && PassDone(start, visits, finalized, stack)
    ensures var f := FiredSerials(visits);
            && (forall i, j :: 0 <= i < j < |f| ==> f[i] != f[j])
            && (forall i :: 0 <= i < |f| ==> f[i] < n0 && Has(start, f[i]) && !Dead(start, f[i]))
    ensures forall s: nat :: Dead(start, s) && s !in stack ==> s in finalized
  {
    hide Has, Dead;
    FiredDescend(visits);
    var f := FiredSerials(visits);
    forall i | 0 <= i < |f| ensures f[i] < n0 && Has(start, f[i]) && !Dead(start, f[i]) {
      FiredAreVisited(visits, f[i]);
    }
    forall s: nat | Dead(start, s) && s !in stack ensures s in finalized {
      DeadIsThere(start, s);
    }
  }

  lemma DeadIsThere(ts: seq<Timer>, s: nat)
    requires Dead(ts, s)
    ensures Has(ts, s)
  {}

  /** A timer that a callback or finalizer deletes before the pass reaches it is not fired. */
  lemma DeletedBeforeReached(
    start: seq<Timer>, visits: seq<Visit>, finalized: seq<nat>, stack: seq<nat>, proc: nat -> Proc,
    finalizer: nat -> seq<Action>, i: nat, s: nat)
    requires PassDone(start, visits, finalized, stack) && DeletionsSeen(visits, stack, proc, finalizer)
    requires i < |visits| && s < visits[i].serial && Delete(s) in ActionsAt(visits[i], stack, proc, finalizer)
    ensures s !in FiredSerials(visits)
  {
    hide ActionsAt;
    forall j | 0 <= j < |visits| && visits[j].serial == s ensures !visits[j].fired {
      assert i < j && visits[..j][i] == visits[i];
      assert DeletedBy(visits[..j], stack, proc, finalizer, s);
    }
    if s in FiredSerials(visits) {
      FiredAreVisited(visits, s);
      assert false;
    }
  }

  /**
   A pass that nests no other reaches every timer there was, and fires it exactly if it was not deleted, neither at the
   start nor by a callback or finalizer since, and was due at the time last read.
   */
  lemma PlainPassFires(
    start: seq<Timer>, n0: nat, f0: seq<nat>, visits: seq<Visit>, finalized: seq<nat>, stack: seq<nat>,
    proc: nat -> Proc, finalizer: nat -> seq<Action>, s: nat)
    requires ListOk(start, n0, f0, stack) && PassDone(start, visits, finalized, stack) && Has(start, s)
    requires finalized == f0 + FreedSerials(visits, stack) && AllFoundAs(start, visits, stack, proc, finalizer)
    ensures exists j :: 0 <= j < |visits| && visits[j].serial == s &&
              (visits[j].fired <==>
               && !Dead(start, s) && !DeletedBy(visits[..j], stack, proc, finalizer, s)
               && start[Place(start, s)].when <= visits[j].now)
  {
    hide Has, Dead, Place, DeletedBy, FreedSerials;
    FreedIff(visits, stack, s);
    GoneIff(start, n0, f0, stack, s);
    var j :| 0 <= j < |visits| && visits[j].serial == s;
    assert FoundAs(start, visits[..j], stack, proc, finalizer, visits[j]);
  }

  // ---- finalizers that start passes ----

  lemma {:induction false} FreedIff(visits: seq<Visit>, stack: seq<nat>, s: nat)
    ensures s in FreedSerials(visits, stack) <==>
            s !in stack && exists i :: 0 <= i < |visits| && visits[i].serial == s && visits[i].dead
  {
    if visits != [] {
      var n := |visits| - 1;
      FreedIff(visits[..n], stack, s);
      if i :| 0 <= i < n && visits[..n][i].serial == s && visits[..n][i].dead {
        assert visits[i].serial == s;
      }
      if i :| 0 <= i < |visits| && visits[i].serial == s && visits[i].dead && i < n {
        assert visits[..n][i].serial == s;
      }
    }
  }

  lemma GoneIff(ts: seq<Timer>, nextId: nat, finalized: seq<nat>, stack: seq<nat>, s: nat)
    requires ListOk(ts, nextId, finalized, stack) && s < nextId
    ensures Has(ts, s) <==> s !in finalized
  {}

  /** A timer in the list before a pass that nests no other is freed exactly if the pass finds it deleted and unheld. */
  lemma {:induction false} PassFreesIff(
    ts: seq<Timer>, nextId: nat, finalized: seq<nat>, ts': seq<Timer>, nextId': nat, finalized': seq<nat>,
    stack: seq<nat>, visits: seq<Visit>, s: nat)
    requires ListOk(ts, nextId, finalized, stack) && ListOk(ts', nextId', finalized', stack) && Has(ts, s)
    requires nextId <= nextId' && finalized' == finalized + FreedSerials(visits, stack)
    ensures !Has(ts', s) <==>
            s !in stack && exists i :: 0 <= i < |visits| && visits[i].serial == s && visits[i].dead
  {
    hide Has, FreedSerials;
    FreedIff(visits, stack, s);
    GoneIff(ts, nextId, finalized, stack, s);
    GoneIff(ts', nextId', finalized', stack, s);
  }

  /** A pass frees all that was deleted before it, but for timers whose callbacks are running. */
  lemma PassSweeps(ts: seq<Timer>, n0: nat, f0: seq<nat>, visits: seq<Visit>, finalized: seq<nat>, stack: seq<nat>)
    requires ListOk(ts, n0, f0, stack) && PassDone(ts, visits, finalized, stack)
    ensures Swept(ts, stack, finalized)
  {
    hide ListOk, Dead, PassDone, FiredSerials;
    FiredOnceAndOld(ts, n0, f0, visits, finalized, stack);
  }

  lemma StaysGone(
    ts: seq<Timer>, nextId: nat, finalized: seq<nat>, ts': seq<Timer>, nextId': nat, finalized': seq<nat>, s: nat)
    requires Evolved(ts, nextId, finalized, ts', nextId', finalized') && s in finalized
    ensures s in finalized'
  {}

  lemma StaysSwept(
    ts0: seq<Timer>, stack: seq<nat>, ts: seq<Timer>, nextId: nat, finalized: seq<nat>,
    ts': seq<Timer>, nextId': nat, finalized': seq<nat>)
    requires Swept(ts0, stack, finalized) && Evolved(ts, nextId, finalized, ts', nextId', finalized')
    ensures Swept(ts0, stack, finalized')
  {
    hide Doomed, Has, Dead;
  }

  /** What was deleted earlier is still deleted, or already freed. */
  lemma SweptBefore(
    ts0: seq<Timer>, n0: nat, f0: seq<nat>, ts: seq<Timer>, nextId: nat, finalized: seq<nat>,
    ts': seq<Timer>, nextId': nat, finalized': seq<nat>, stack: seq<nat>)
    requires ListOk(ts0, n0, f0, stack) && ListOk(ts, nextId, finalized, stack)
    requires Evolved(ts0, n0, f0, ts, nextId, finalized) && Evolved(ts, nextId, finalized, ts', nextId', finalized')
    requires Swept(ts, stack, finalized')
    ensures Swept(ts0, stack, finalized')
  {
    hide Has, Dead;
    forall s: nat | Doomed(ts0, stack, s) ensures s in finalized' {
      DeadIsThere(ts0, s);
      if !Has(ts, s) {
        StaysGone(ts, nextId, finalized, ts', nextId', finalized', s);
      } else {
        assert Doomed(ts, stack, s);
      }
    }
  }

  lemma SweptWithFreed(ts: seq<Timer>, nextId: nat, finalized: seq<nat>, stack: seq<nat>, i: nat, finalized': seq<nat>)
    requires ListOk(ts, nextId, finalized, stack) && i < |ts|
    requires Swept(WithoutAt(ts, i), stack, finalized') && ts[i].serial in finalized'
    ensures Swept(ts, stack, finalized')
  {
    hide Has, Place, WithoutAt;
    WithoutHas(ts, i);
    forall s: nat | Doomed(ts, stack, s) ensures s in finalized' {
      assert s != ts[i].serial ==> Doomed(WithoutAt(ts, i), stack, s);
    }
  }

  lemma SweptIsGone(ts: seq<Timer>, ts': seq<Timer>, nextId: nat, finalized: seq<nat>, stack: seq<nat>, s: nat)
    requires Swept(ts, stack, finalized) && Doomed(ts, stack, s) && ListOk(ts', nextId, finalized, stack)
    ensures !Has(ts', s)
  {
    hide Has, Dead;
  }

  lemma DoomedParts(ts: seq<Timer>, stack: seq<nat>, s: nat)
    ensures BothDoomed(ts, stack, s) ==>
              && Dead(ts, s) && s !in stack && Has(ts, s) && NextOf(ts, s).Some?
              && Doomed(ts, stack, NextOf(ts, s).value)
  {}

  /**
   A pass over two deleted timers, in any environment whose finalizers all do `actions`: it follows a pointer to a
   freed timer exactly if they start a pass.
   */
  method FinalizerStartsPass(now: nat -> int, proc: nat -> Proc, actions: seq<Action>) returns (loop: EventLoop, safe: bool)
    ensures fresh(loop) && loop.now == now && loop.proc == proc && forall n: nat :: loop.finalizer(n) == actions
    ensures safe <==> Reenter !in actions
  {
    hide ListOk, Evolved, Place, Has, PassDone, CallsBelow, CalledAt, FiredSerials, FreedSerials;
    loop := new EventLoop(now, proc, n => actions);
    var older := loop.CreateTimeEvent(0);
    var newer := loop.CreateTimeEvent(0);
    TwoTimers(loop.timers);
    ghost var when1, when0 := loop.timers[0].when, loop.timers[1].when;
    var ok := loop.DeleteTimeEvent(0);
    ok := loop.DeleteTimeEvent(1);
    assert loop.timers == [Timer(1, DELETED, when1, 0), Timer(0, DELETED, when0, 0)];
    TwoTimers(loop.timers);
    var _, _, r := loop.ProcessTimeEvents(1);
    safe := r;
  }

  /**
   Two due timers, and every callback deletes the older one: the newer fires, and the pass finds the other deleted and
   frees it.
   */
  method NewerDeletesOlder(retval: int) returns (loop: EventLoop, visits: seq<Visit>)
    ensures fresh(loop) && forall n: nat :: loop.proc(n) == Proc([Delete(0)], retval)
    ensures loop.finalized == [0] && FiredSerials(visits) == [1] && CalledAt(loop.calls, 0) == [1]
  {
    hide ListOk, Evolved, Place, Has, CallsBelow, CalledAt, FiredSerials, FreedSerials, PassDone, DeletionsSeen, AllFoundAs,
      NumberedRight, DeletionsDone, Clocked, NewestFirst;
    loop := new EventLoop((n: nat) => n * 1000, n => Proc([Delete(0)], retval), n => []);
    NoneCalled();
    var older := loop.CreateTimeEvent(0);
    var newer := loop.CreateTimeEvent(0);
    ghost var ts := loop.timers;
    assert ts == [Timer(1, 1, 1000, 0), Timer(0, 0, 0, 0)];
    TwoTimers(ts);
    var processed, visited, _ := loop.ProcessTimeEvents(0);
    visits := visited;
    StartOfPass(visits, loop.now, loop.clock);
    NewerThenOlder(ts, visits, loop.finalized, loop.proc, loop.finalizer);
  }

  lemma NoneCalled()
    ensures CalledAt([], 0) == [] && forall f: seq<nat> :: [] + f == f
  {}

  lemma StartOfPass(visits: seq<Visit>, now: nat -> int, clock: nat)
    requires Clocked(visits, [], now, 2, clock)
    ensures visits != [] ==> visits[0].now == now(2)
  {}

  lemma NewerThenOlder(
    ts: seq<Timer>, visits: seq<Visit>, finalized: seq<nat>, proc: nat -> Proc, finalizer: nat -> seq<Action>)
    requires ts == [Timer(1, 1, 1000, 0), Timer(0, 0, 0, 0)] && ListOk(ts, 2, [], [])
    requires PassDone(ts, visits, finalized, []) && finalized == [] + FreedSerials(visits, [])
    requires AllFoundAs(ts, visits, [], proc, finalizer) && (visits != [] ==> visits[0].now == 2000)
    requires forall n: nat :: Delete(0) in proc(n).actions
    ensures FiredSerials(visits) == [1] && finalized == [0]
  {
    hide PassDone, FreedSerials, FiredSerials, AllFoundAs, ListOk, Has, Dead, Place;
    TwoTimers(ts);
    NeitherDeleted(ts);
    PlainPassFires(ts, 2, [], visits, finalized, [], proc, finalizer, 1);
    PlainPassFires(ts, 2, [], visits, finalized, [], proc, finalizer, 0);
    TwoReached(ts, visits, finalized);
    assert visits[..0] == [];
    assert visits[0].fired;
    assert Delete(0) in ActionsAt(visits[..1][0], [], proc, finalizer);
    OlderFound(ts, visits, proc, finalizer);
    assert visits == [visits[0], visits[1]];
    TwoVisits(visits[0], visits[1]);
  }

  lemma TwoReached(ts: seq<Timer>, visits: seq<Visit>, finalized: seq<nat>)
    requires |ts| == 2 && ts[0].serial == 1 && ts[1].serial == 0 && PassDone(ts, visits, finalized, [])
    requires exists i, j :: 0 <= i < |visits| && 0 <= j < |visits| && visits[i].serial == 1 && visits[j].serial == 0
    ensures |visits| == 2 && visits[0].serial == 1 && visits[1].serial == 0
    ensures forall v :: v in visits && v.fired ==> !v.dead
  {
    assert forall s: nat :: Has(ts, s) ==> s < 2;
    assert forall i :: 0 <= i < |visits| ==> visits[i].serial < 2;
    SerialsDescend(visits, |visits| - 1);
  }

  lemma {:induction false} SerialsDescend(visits: seq<Visit>, k: nat)
    requires k < |visits| && forall i, j :: 0 <= i < j < |visits| ==> visits[i].serial > visits[j].serial
    ensures visits[k].serial + k <= visits[0].serial
  {
    if k > 0 {
      SerialsDescend(visits, k - 1);
    }
  }

  lemma NeitherDeleted(ts: seq<Timer>)
    requires ts == [Timer(1, 1, 1000, 0), Timer(0, 0, 0, 0)]
    ensures !Dead(ts, 0) && !Dead(ts, 1)
  {
    TwoTimers(ts);
  }

  lemma OlderFound(ts: seq<Timer>, visits: seq<Visit>, proc: nat -> Proc, finalizer: nat -> seq<Action>)
    requires AllFoundAs(ts, visits, [], proc, finalizer) && |visits| == 2 && visits[1].serial == 0
    requires DeletedBy(visits[..1], [], proc, finalizer, 0)
    ensures visits[1].dead
  {}

  lemma TwoVisits(v: Visit, w: Visit)
    ensures FiredSerials([v, w]) == (if v.fired then [v.serial] else []) + if w.fired then [w.serial] else []
    ensures var f := FreedSerials([v, w], []);
            f == (if v.dead then [v.serial] else []) + if w.dead then [w.serial] else []
  {
    assert [v, w][..1] == [v] && [v][..0] == [];
    assert FiredSerials([v]) == (if v.fired then [v.serial] else []);
    assert FreedSerials([v], []) == (if v.dead then [v.serial] else []);
  }

  /** With its only timer deleted, the loop cannot say how long to wait. */
  method OnlyTimerDeleted(now: nat -> int, proc: nat -> Proc, finalizer: nat -> seq<Action>, milliseconds: int)
    returns (loop: EventLoop, us: Option<int>)
    ensures fresh(loop) && loop.now == now && loop.proc == proc && loop.finalizer == finalizer
    ensures loop.Valid() && us.None?
  {
    hide ListOk, Evolved;
    loop := new EventLoop(now, proc, finalizer);
    var id := loop.CreateTimeEvent(milliseconds);
    var ok := loop.DeleteTimeEvent(id);
    us := loop.UsUntilEarliestTimer();
  }

  lemma TwoTimers(ts: seq<Timer>)
    requires |ts| == 2 && ts[0].serial == 1 && ts[1].serial == 0
    ensures Has(ts, 1) && Has(ts, 0) && Place(ts, 1) == 0 && Place(ts, 0) == 1
    ensures NextOf(ts, 1) == Some(0)
  {
    assert ts[1..][0] == ts[1];
  }
}
