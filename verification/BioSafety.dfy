/** What holds in every reachable state of the background job protocol. */
module BioSafety {
  import opened Bio

  /** The completion requests among the jobs. */
  function Comps(jobs: seq<Job>): seq<Job> {
    if jobs == [] then [] else Comps(jobs[..|jobs| - 1]) + if IsComp(jobs[|jobs| - 1].jtype) then [jobs[|jobs| - 1]] else []
  }

  /** The jobs that belong to worker `w`. */
  function OfWorker(jobs: seq<Job>, w: nat): seq<Job> {
    if jobs == [] then [] else (if WorkerOf(jobs[0].jtype) == w then [jobs[0]] else []) + OfWorker(jobs[1..], w)
  }

  function CountOf(jobs: seq<Job>, t: JobType): nat {
    if jobs == [] then 0 else (if jobs[0].jtype == t then 1 else 0) + CountOf(jobs[1..], t)
  }

  /** Completions handed over: run, taken by the main thread, or waiting in the list. */
  function HandedOver(s: State): seq<Job> {
    s.ran + (if s.reader.Running? then s.reader.batch else []) + s.comp
  }

  predicate Busy(pc: Pc) {
    pc.Working? || pc.Appended? || pc.Finishing?
  }

  /** How many jobs of the worker have taken effect. */
  function Executed(x: Worker): nat {
    x.removed + if x.pc.Appended? || x.pc.Finishing? then 1 else 0
  }

  /** The queue holds exactly the jobs not yet removed, in order; a busy worker is on the first of them. */
  ghost predicate WorkerOk(x: Worker, w: nat) {
    && x.removed <= |x.submitted| && x.queue == x.submitted[x.removed..]
    && (forall i :: 0 <= i < |x.submitted| ==> x.submitted[i].id == i && WorkerOf(x.submitted[i].jtype) == w)
    && (Busy(x.pc) ==> x.queue != [] && x.pc.job == x.queue[0])
    && (x.pc.Appended? ==> IsComp(x.pc.job.jtype))
  }

  ghost predicate WorkersOk(s: State) {
    |s.workers| == WORKERS && forall w :: 0 <= w < WORKERS ==> WorkerOk(s.workers[w], w)
  }

  /** The counter of a type is the number of its jobs still queued, the one being processed included. */
  ghost predicate CountersOk(s: State)
    requires |s.workers| == WORKERS
  {
    forall t :: t in s.counter && s.counter[t] == CountOf(s.workers[WorkerOf(t)].queue, t)
  }

  /** Nobody sleeps through what it waits for. */
  ghost predicate WakeOk(s: State)
    requires |s.workers| == WORKERS
  {
    && (forall w :: 0 <= w < WORKERS && s.workers[w].pc.Asleep? ==> s.workers[w].queue == [])
    && (s.drain.DrainAsleep? ==> s.drain.worker < WORKERS && s.workers[s.drain.worker].queue != [])
    && (s.drain.DrainChecking? ==> s.drain.worker < WORKERS)
    && (s.drain != NoDrain ==> s.reader.Idle? || s.reader.Running?)
  }

  /** A completion in the list is announced: by a byte, by a worker about to write one, or by a reader on its way. */
  ghost predicate Announced(s: State)
    requires |s.workers| == WORKERS
  {
    && s.capacity > 0
    && (s.comp != [] ==> s.pipe > 0 || s.reader.Reading? || s.reader.Taking? ||
                         exists w :: 0 <= w < WORKERS && s.workers[w].pc.Appended?)
  }

  /** Of each worker, exactly the completion requests that took effect were handed over, each once and in order. */
  ghost predicate HandoverOk(s: State)
    requires |s.workers| == WORKERS && WorkersOk(s)
  {
    forall w :: 0 <= w < WORKERS ==> HandedOverBy(s, w)
  }

  ghost predicate HandedOverBy(s: State, w: nat)
    requires |s.workers| == WORKERS && w < WORKERS && WorkerOk(s.workers[w], w)
  {
    Executed(s.workers[w]) <= |s.workers[w].submitted| &&
    OfWorker(HandedOver(s), w) == Comps(s.workers[w].submitted[..Executed(s.workers[w])])
  }

  ghost predicate Inv(s: State) {
    WorkersOk(s) && CountersOk(s) && WakeOk(s) && Announced(s) && HandoverOk(s)
  }

  // ---- lists ----

  lemma Assoc(a: seq<Job>, b: seq<Job>, c: seq<Job>)
    ensures a + (b + c) == a + b + c
  {}

  lemma {:induction false} OfWorkerConcat(a: seq<Job>, b: seq<Job>, w: nat)
    ensures OfWorker(a + b, w) == OfWorker(a, w) + OfWorker(b, w)
  {
    if a == [] {
      assert a + b == b;
    } else {
      var head := if WorkerOf(a[0].jtype) == w then [a[0]] else [];
      assert (a + b)[1..] == a[1..] + b;
      assert OfWorker(a + b, w) == head + OfWorker(a[1..] + b, w);
      OfWorkerConcat(a[1..], b, w);
      Assoc(head, OfWorker(a[1..], w), OfWorker(b, w));
    }
  }

  lemma {:induction false} CountConcat(a: seq<Job>, b: seq<Job>, t: JobType)
    ensures CountOf(a + b, t) == CountOf(a, t) + CountOf(b, t)
  {
    if a == [] {
      assert a + b == b;
    } else {
      CountConcat(a[1..], b, t);
      assert (a + b)[1..] == a[1..] + b;
    }
  }

  lemma CompsStep(jobs: seq<Job>, n: nat)
    requires n < |jobs|
    ensures Comps(jobs[..n + 1]) == Comps(jobs[..n]) + if IsComp(jobs[n].jtype) then [jobs[n]] else []
  {
    assert jobs[..n + 1][..n] == jobs[..n];
  }

  lemma OfWorkerOne(job: Job, w: nat)
    ensures OfWorker([job], w) == if WorkerOf(job.jtype) == w then [job] else []
  {
    assert [job][1..] == [];
  }

  // ---- workers ----

  lemma EnqueueOk(x: Worker, w: nat, t: JobType)
    requires WorkerOk(x, w) && WorkerOf(t) == w
    ensures WorkerOk(Enqueue(x, t), w) && Enqueue(x, t).queue != []
    ensures forall pc :: pc == Checking ==> WorkerOk(Enqueue(x, t).(pc := pc), w)
  {
    var job := Job(|x.submitted|, t);
    assert (x.submitted + [job])[x.removed..] == x.submitted[x.removed..] + [job];
  }

  lemma HeadDropped(x: Worker, w: nat)
    requires WorkerOk(x, w) && Busy(x.pc)
    ensures Drop(x.queue, x.pc.job) == x.queue[1..] && x.queue[0] == x.submitted[x.removed] && x.removed < |x.submitted|
    ensures WorkerOf(x.pc.job.jtype) == w
  {}

  // ---- what a step changes, field by field ----

  /** `s'` differs from `s` at most in worker `w`, the counters and the drain. */
  ghost predicate SameHandover(s: State, s': State) {
    s'.comp == s.comp && s'.pipe == s.pipe && s'.capacity == s.capacity && s'.reader == s.reader && s'.ran == s.ran
  }

  ghost predicate OnlyWorker(s: State, s': State, w: nat) {
    |s.workers| == |s'.workers| == WORKERS && w < WORKERS
    && forall v :: 0 <= v < WORKERS && v != w ==> s'.workers[v] == s.workers[v]
  }

  /** The sleepers of worker `w` after a signal: one of them is woken, if there is one. */
  ghost predicate Woken(pc: Pc, drain: Drain, pc': Pc, drain': Drain, w: nat) {
    || (pc == Asleep && pc' == Checking && drain' == drain)
    || (drain == DrainAsleep(w) && drain' == DrainChecking(w) && pc' == pc)
    || (pc != Asleep && drain != DrainAsleep(w) && pc' == pc && drain' == drain)
  }

  lemma SignalAfter(s: State, w: nat, toDrainer: bool)
    requires |s.workers| == WORKERS && w < WORKERS
    ensures var s' := Signal(s, w, toDrainer);
            && SameHandover(s, s') && OnlyWorker(s, s', w) && s'.counter == s.counter
            && s'.workers[w] == s.workers[w].(pc := s'.workers[w].pc)
            && Woken(s.workers[w].pc, s.drain, s'.workers[w].pc, s'.drain, w)
  {}

  ghost predicate Counted(counter: map<JobType, int>, counter': map<JobType, int>, t: JobType, delta: int) {
    forall u :: u in counter ==> u in counter' && counter'[u] == counter[u] + if u == t then delta else 0
  }

  ghost predicate SubmitChanges(s: State, t: JobType, s': State) {
    var w := WorkerOf(t);
    && SameHandover(s, s') && OnlyWorker(s, s', w) && Counted(s.counter, s'.counter, t, 1)
    && s'.workers[w] == Enqueue(s.workers[w], t).(pc := s'.workers[w].pc)
    && Woken(s.workers[w].pc, s.drain, s'.workers[w].pc, s'.drain, w)
  }

  lemma SubmitAfter(s: State, t: JobType, toDrainer: bool)
    requires |s.workers| == WORKERS
    ensures SubmitChanges(s, t, Apply(s, Submit(t, toDrainer)))
  {
    hide Signal, Woken;
    var w := WorkerOf(t);
    SignalAfter(Count(SetWorker(s, w, Enqueue(s.workers[w], t)), t, 1), w, toDrainer);
  }

  function Shorter(x: Worker, job: Job): Worker {
    LookAt(x.(queue := Drop(x.queue, job), removed := x.removed + 1))
  }

  ghost predicate FinishChanges(s: State, w: nat, s': State) {
    && w < |s.workers| && s.workers[w].pc.Finishing?
    && var x, job := s.workers[w], s.workers[w].pc.job;
       && SameHandover(s, s') && OnlyWorker(s, s', w) && Counted(s.counter, s'.counter, job.jtype, -1)
       && s'.workers[w] == Shorter(x, job)
       && s'.drain == (if s.drain == DrainAsleep(w) then DrainChecking(w) else s.drain)
  }

  lemma FinishAfter(s: State, w: nat)
    requires |s.workers| == WORKERS && Enabled(s, Finish(w))
    ensures FinishChanges(s, w, Apply(s, Finish(w)))
  {
    hide LookAt, Drop, Signal;
    var x, job := s.workers[w], s.workers[w].pc.job;
    SignalAfter(Count(SetWorker(s, w, x.(queue := Drop(x.queue, job), removed := x.removed + 1)), job.jtype, -1), w, true);
  }

  // ---- the invariant is kept ----

  lemma WorkersFrom(s: State, s': State, w: nat)
    requires WorkersOk(s) && OnlyWorker(s, s', w) && WorkerOk(s'.workers[w], w)
    ensures WorkersOk(s')
  {
    hide WorkerOk;
  }

  /** The completions handed over stay the same, and so do the executed jobs of the worker that moved. */
  lemma HandoverFrom(s: State, s': State, w: nat)
    requires WorkersOk(s) && WorkersOk(s') && HandoverOk(s) && OnlyWorker(s, s', w) && HandedOver(s') == HandedOver(s)
    requires var x, x' := s.workers[w], s'.workers[w];
             Executed(x') == Executed(x) && |x.submitted| <= |x'.submitted| && x'.submitted[..|x.submitted|] == x.submitted
    ensures HandoverOk(s')
  {
    hide WorkerOk, HandedOver, OfWorker, Comps;
    forall v | 0 <= v < WORKERS ensures HandedOverBy(s', v) {
      assert HandedOverBy(s, v);
      var n := Executed(s.workers[v]);
      if v == w {
        assert s'.workers[w].submitted[..n] == s'.workers[w].submitted[..|s.workers[w].submitted|][..n];
      }
    }
  }

  lemma CountsFrom(s: State, s': State, w: nat, t: JobType, delta: int)
    requires |s.workers| == WORKERS && CountersOk(s) && OnlyWorker(s, s', w) && WorkerOf(t) == w
    requires Counted(s.counter, s'.counter, t, delta)
    requires forall u :: CountOf(s'.workers[w].queue, u) == CountOf(s.workers[w].queue, u) + if u == t then delta else 0
    ensures CountersOk(s')
  {
    hide CountOf;
    forall u ensures u in s'.counter && s'.counter[u] == CountOf(s'.workers[WorkerOf(u)].queue, u) {
      assert u in s.counter && s.counter[u] == CountOf(s.workers[WorkerOf(u)].queue, u);
      assert WorkerOf(u) != w ==> s'.workers[WorkerOf(u)] == s.workers[WorkerOf(u)];
    }
  }

  lemma PcOnlyIsOk(x: Worker, pc: Pc, w: nat)
    requires WorkerOk(x, w) && (pc == Checking || pc == x.pc)
    ensures WorkerOk(x.(pc := pc), w)
  {}

  lemma CountAfterEnqueue(x: Worker, job: JobType, t: JobType)
    ensures CountOf(Enqueue(x, job).queue, t) == CountOf(x.queue, t) + if job == t then 1 else 0
  {
    CountConcat(x.queue, [Job(|x.submitted|, job)], t);
    assert [Job(|x.submitted|, job)][1..] == [];
  }

  lemma AnnouncedFrom(s: State, s': State)
    requires |s.workers| == |s'.workers| == WORKERS && Announced(s) && SameHandover(s, s')
    requires forall w :: 0 <= w < WORKERS && s.workers[w].pc.Appended? ==> s'.workers[w].pc.Appended?
    ensures Announced(s')
  {
    if w :| 0 <= w < WORKERS && s.workers[w].pc.Appended? {
      assert s'.workers[w].pc.Appended?;
    }
  }

  lemma EnqueuedFacts(x: Worker, w: nat, t: JobType, x': Worker)
    requires WorkerOk(x, w) && WorkerOf(t) == w && x' == Enqueue(x, t).(pc := x'.pc)
    requires x'.pc == x.pc || (x.pc == Asleep && x'.pc == Checking)
    ensures WorkerOk(x', w) && Executed(x') == Executed(x) && x'.queue != []
    ensures |x.submitted| <= |x'.submitted| && x'.submitted[..|x.submitted|] == x.submitted
    ensures x.pc.Appended? && x'.pc == x.pc ==> x'.pc.Appended?
    ensures forall u :: CountOf(x'.queue, u) == CountOf(x.queue, u) + if u == t then 1 else 0
  {
    hide CountOf;
    EnqueueOk(x, w, t);
    PcOnlyIsOk(Enqueue(x, t), x'.pc, w);
    forall u ensures CountOf(x'.queue, u) == CountOf(x.queue, u) + if u == t then 1 else 0 {
      CountAfterEnqueue(x, t, u);
    }
  }

  lemma SubmitKeeps(s: State, t: JobType, s': State)
    requires Inv(s) && SubmitChanges(s, t, s')
    ensures Inv(s')
  {
    hide CountOf, Counted, Announced, HandoverOk, WorkerOk, CountersOk, Enqueue, Executed, HandedOver;
    var w := WorkerOf(t);
    EnqueuedFacts(s.workers[w], w, t, s'.workers[w]);
    WorkersFrom(s, s', w);
    SameOut(s, s');
    HandoverFrom(s, s', w);
    CountsFrom(s, s', w, t, 1);
    AnnouncedFrom(s, s');
  }

  lemma SameOut(s: State, s': State)
    requires SameHandover(s, s')
    ensures HandedOver(s') == HandedOver(s)
  {}

  lemma ShorterIsOk(x: Worker, w: nat)
    requires WorkerOk(x, w) && x.pc.Finishing?
    ensures var y := Shorter(x, x.pc.job);
            && WorkerOk(y, w) && Executed(y) == Executed(x) && y.submitted == x.submitted && y.queue == x.queue[1..]
            && (y.pc == Asleep <==> y.queue == []) && !y.pc.Checking? && !y.pc.Appended?
    ensures WorkerOf(x.pc.job.jtype) == w && x.queue != []
    ensures forall u :: CountOf(x.queue[1..], u) == CountOf(x.queue, u) + if u == x.pc.job.jtype then -1 else 0
  {
    HeadDropped(x, w);
  }

  lemma FinishKeeps(s: State, w: nat, s': State)
    requires Inv(s) && FinishChanges(s, w, s')
    ensures Inv(s')
  {
    var x, x' := s.workers[w], s'.workers[w];
    assert WorkerOk(x, w);
    ShorterIsOk(x, w);
    hide CountOf, Counted, Announced, HandoverOk, WorkerOk, CountersOk, Shorter;
    WorkersFrom(s, s', w);
    HandoverFrom(s, s', w);
    CountsFrom(s, s', w, x.pc.job.jtype, -1);
    AnnouncedFrom(s, s');
  }

  /** Only the place of worker `w` in its loop changes. */
  ghost predicate PcChanges(s: State, w: nat, pc: Pc, s': State) {
    && OnlyWorker(s, s', w) && s'.workers[w] == s.workers[w].(pc := pc)
    && s'.counter == s.counter && s'.drain == s.drain && s'.reader == s.reader && s'.ran == s.ran
    && s'.capacity == s.capacity
  }

  lemma PcCounts(s: State, w: nat, pc: Pc, s': State)
    requires |s.workers| == WORKERS && CountersOk(s) && PcChanges(s, w, pc, s')
    ensures CountersOk(s')
  {
    forall t ensures t in s'.counter && s'.counter[t] == CountOf(s'.workers[WorkerOf(t)].queue, t) {
      assert s'.workers[WorkerOf(t)].queue == s.workers[WorkerOf(t)].queue;
    }
  }

  /** A worker looks at its queue, or wakes up for no reason. */
  lemma LookKeeps(s: State, w: nat, s': State)
    requires Inv(s) && w < WORKERS && SameHandover(s, s') && (s.workers[w].pc.Checking? || s.workers[w].pc.Asleep?)
    requires PcChanges(s, w, LookAt(s.workers[w]).pc, s') || PcChanges(s, w, Checking, s')
    ensures Inv(s')
  {
    assert WorkerOk(s.workers[w], w) && WorkerOk(s'.workers[w], w);
    hide WorkerOk, CountersOk, HandoverOk, Announced;
    WorkersFrom(s, s', w);
    SameOut(s, s');
    HandoverFrom(s, s', w);
    PcCounts(s, w, s'.workers[w].pc, s');
    AnnouncedFrom(s, s');
  }

  /** The byte is in the pipe, or the pipe was full. */
  lemma WriteKeeps(s: State, w: nat, s': State)
    requires Inv(s) && w < WORKERS && s.workers[w].pc.Appended? && PcChanges(s, w, Finishing(s.workers[w].pc.job), s')
    requires s'.comp == s.comp && s'.pipe == if s.pipe < s.capacity then s.pipe + 1 else s.pipe
    ensures Inv(s')
  {
    assert WorkerOk(s.workers[w], w) && WorkerOk(s'.workers[w], w);
    hide WorkerOk, CountersOk, HandoverOk;
    WorkersFrom(s, s', w);
    HandoverFrom(s, s', w);
    PcCounts(s, w, s'.workers[w].pc, s');
  }

  /** The executed job of a worker, and what it hands over. */
  lemma WorkHandsOver(s: State, w: nat, s': State)
    requires WorkersOk(s) && WorkersOk(s') && HandoverOk(s) && OnlyWorker(s, s', w)
    requires var x, x' := s.workers[w], s'.workers[w];
             && x.pc.Working? && x'.submitted == x.submitted && Executed(x') == x.removed + 1
             && HandedOver(s') == HandedOver(s) + if IsComp(x.pc.job.jtype) then [x.pc.job] else []
    ensures HandoverOk(s')
  {
    var x := s.workers[w];
    assert WorkerOk(x, w);
    HeadDropped(x, w);
    hide WorkerOk, HandedOver, OfWorker, Comps;
    CompsStep(x.submitted, x.removed);
    assert HandedOver(s) + [] == HandedOver(s);
    forall v | 0 <= v < WORKERS ensures HandedOverBy(s', v) {
      assert HandedOverBy(s, v);
      OfWorkerConcat(HandedOver(s), [x.pc.job], v);
      OfWorkerOne(x.pc.job, v);
      assert OfWorker(HandedOver(s), v) + [] == OfWorker(HandedOver(s), v);
    }
  }

  lemma WorkKeeps(s: State, w: nat, s': State)
    requires Inv(s) && Enabled(s, Work(w)) && s' == WorkOn(s, w)
    ensures Inv(s')
  {
    var x := s.workers[w];
    assert WorkerOk(x, w) && WorkerOk(s'.workers[w], w);
    assert PcChanges(s, w, s'.workers[w].pc, s');
    hide WorkerOk, CountersOk, HandoverOk;
    WorkersFrom(s, s', w);
    WorkHandsOver(s, w, s');
    PcCounts(s, w, s'.workers[w].pc, s');
    if IsComp(x.pc.job.jtype) {
      assert s'.workers[w].pc.Appended?;
    } else {
      AnnouncedFrom(s, s');
    }
  }

  lemma StillOk(s: State, s': State)
    requires Inv(s) && s'.workers == s.workers && s'.counter == s.counter && HandedOver(s') == HandedOver(s)
    ensures WorkersOk(s') && CountersOk(s') && HandoverOk(s')
  {
    hide WorkerOk, HandedOver;
    forall w | 0 <= w < WORKERS ensures HandedOverBy(s', w) {
      assert HandedOverBy(s, w);
    }
  }

  lemma DrainKeeps(s: State, step: Step)
    requires Inv(s) && Enabled(s, step) && (step.SpuriousDrain? || step.StartDrain? || step.DrainLook?)
    ensures Inv(Apply(s, step))
  {
    StillOk(s, Apply(s, step));
    hide WorkerOk, CountersOk, HandoverOk;
  }

  /** The main thread at the pipe and the completion list. */
  lemma ReaderKeeps(s: State, step: Step)
    requires Inv(s) && Enabled(s, step) && (step.Readable? || step.Read? || step.Take? || step.Callback?)
    ensures Inv(Apply(s, step))
  {
    StillHandedOver(s, step);
    StillOk(s, Apply(s, step));
    hide WorkerOk, CountersOk, HandoverOk, HandedOver;
  }

  lemma StillHandedOver(s: State, step: Step)
    requires |s.workers| == WORKERS && Enabled(s, step) && (step.Readable? || step.Read? || step.Take? || step.Callback?)
    ensures HandedOver(Apply(s, step)) == HandedOver(s)
  {
    if step.Callback? && s.reader.batch != [] {
      assert s.reader.batch == [s.reader.batch[0]] + s.reader.batch[1..];
    }
  }

  /** The invariant is kept by every step. */
  lemma StepKeeps(s: State, step: Step)
    requires Inv(s) && Enabled(s, step)
    ensures Inv(Apply(s, step))
  {
    hide Inv;
    assert |s.workers| == WORKERS by { InvSize(s); }
    match step
    case Submit(t, toDrainer) =>
      SubmitAfter(s, t, toDrainer);
      SubmitKeeps(s, t, Apply(s, step));
    case Finish(w) =>
      FinishAfter(s, w);
      FinishKeeps(s, w, Apply(s, step));
    case Look(w) => LookKeeps(s, w, Apply(s, step));
    case SpuriousWorker(w) => LookKeeps(s, w, Apply(s, step));
    case Work(w) => WorkKeeps(s, w, Apply(s, step));
    case Write(w) => WriteKeeps(s, w, Apply(s, step));
    case SpuriousDrain => DrainKeeps(s, step);
    case StartDrain(_) => DrainKeeps(s, step);
    case DrainLook => DrainKeeps(s, step);
    case Readable => ReaderKeeps(s, step);
    case Read => ReaderKeeps(s, step);
    case Take => ReaderKeeps(s, step);
    case Callback => ReaderKeeps(s, step);
  }

  lemma InvSize(s: State)
    requires Inv(s)
    ensures |s.workers| == WORKERS
  {}

  lemma EveryTypeListed(t: JobType)
    ensures t in Types()
  {
    match t
    case CloseFile => case AofFsync => case LazyFree => case CloseAof =>
    case CompCloseFile => case CompAofFsync => case CompLazyFree =>
  }

  lemma InitialIsOk(capacity: nat)
    requires capacity > 0
    ensures Inv(Initial(capacity))
  {
    var s := Initial(capacity);
    forall t ensures t in s.counter {
      EveryTypeListed(t);
    }
    assert forall w :: 0 <= w < WORKERS ==> HandedOverBy(s, w);
  }
}
