/** What a job waits for, by the kinds of jobs: no statement here mentions the thread a kind is given to. */
module BioOrder {
  import opened Bio
  import opened BioSafety
  import opened BioRuns

  /** Jobs of these two kinds are done in the order in which they are requested. */
  predicate InOrder(t: JobType, u: JobType) {
    || (t in {CloseFile, CompCloseFile} && u in {CloseFile, CompCloseFile})
    || (t in {LazyFree, CompLazyFree} && u in {LazyFree, CompLazyFree})
    || (t in {AofFsync, CloseAof, CompAofFsync} && u in {AofFsync, CloseAof, CompAofFsync})
  }

  /** Step `i` is the request for `job`. */
  ghost predicate SubmittedAt(run: seq<State>, steps: seq<Step>, i: nat, job: Job) {
    && i < |steps| && i + 1 < |run| && steps[i].Submit? && steps[i].jtype == job.jtype
    && Appended(run[i], run[i + 1], job)
  }

  ghost predicate Appended(s: State, s': State, job: Job) {
    exists w :: AppendedTo(s, s', w, job)
  }

  ghost predicate AppendedTo(s: State, s': State, w: int, job: Job) {
    0 <= w < |s.workers| && w < |s'.workers| && s'.workers[w].submitted == s.workers[w].submitted + [job]
  }

  /** Step `i` carries out `job`. */
  ghost predicate WorkedAt(run: seq<State>, steps: seq<Step>, i: nat, job: Job) {
    && i < |steps| && i < |run| && steps[i].Work?
    && steps[i].worker < |run[i].workers| && run[i].workers[steps[i].worker].pc == Working(job)
  }

  lemma SubmitsOne(s: State, t: JobType, toDrainer: bool, v: nat, job: Job)
    requires |s.workers| == WORKERS && AppendedTo(s, Apply(s, Submit(t, toDrainer)), v, job)
    ensures v == WorkerOf(t) && job == Job(|s.workers[v].submitted|, t)
  {
    hide Apply;
    SubmitAfter(s, t, toDrainer);
    var s' := Apply(s, Submit(t, toDrainer));
    assert |s'.workers[v].submitted| != |s.workers[v].submitted|;
    assert s'.workers[v].submitted[|s.workers[v].submitted|] == job;
  }

  /** The list of requests only grows, and only working on the next job adds to those that took effect. */
  ghost predicate Progress(step: Step, w: nat, x: Worker, x': Worker) {
    && |x.submitted| <= |x'.submitted| && x'.submitted[..|x.submitted|] == x.submitted
    && (|| Executed(x') <= Executed(x)
        || (step == Work(w) && x.pc.Working? && Executed(x') == Executed(x) + 1 && Executed(x) < |x.submitted|
            && x.pc.job == x.submitted[Executed(x)]))
  }

  lemma StepProgress(s: State, step: Step, w: nat)
    requires Inv(s) && Enabled(s, step) && w < WORKERS
    ensures |s.workers| == |Apply(s, step).workers| == WORKERS
    ensures Progress(step, w, s.workers[w], Apply(s, step).workers[w])
  {
    hide Signal, FinishJob, LookAt, CountersOk, WakeOk, Announced, HandoverOk;
    assert WorkerOk(s.workers[w], w);
    match step
    case Submit(t, toDrainer) => SubmitAfter(s, t, toDrainer);
    case Finish(v) =>
      FinishAfter(s, v);
      assert WorkerOk(s.workers[v], v);
      ShorterIsOk(s.workers[v], v);
    case Look(_) => LookExecutes(s.workers[w]);
    case Work(_) =>
    case Write(_) =>
    case SpuriousWorker(_) =>
    case _ => MainThreadAlone(s, step);
  }

  lemma MainThreadAlone(s: State, step: Step)
    requires |s.workers| == WORKERS && Enabled(s, step)
    requires !step.Submit? && !step.Look? && !step.Work? && !step.Write? && !step.Finish? && !step.SpuriousWorker?
    ensures Apply(s, step).workers == s.workers
  {}

  lemma LookExecutes(x: Worker)
    ensures LookAt(x).submitted == x.submitted && Executed(LookAt(x)) == x.removed
  {}

  lemma RunStep(run: seq<State>, steps: seq<Step>, i: nat, w: nat)
    requires IsRun(run, steps) && i < |steps| && w < WORKERS
    ensures |run[i].workers| == |run[i + 1].workers| == WORKERS
    ensures Progress(steps[i], w, run[i].workers[w], run[i + 1].workers[w])
  {
    hide Inv, Apply, Enabled, Progress;
    EveryStateIsOk(run, steps, i);
    assert Follows(run[i], steps[i], run[i + 1]);
    StepProgress(run[i], steps[i], w);
  }

  /** What was requested stays requested, at the same place. */
  lemma {:induction false} RequestsStay(run: seq<State>, steps: seq<Step>, i: nat, n: nat, w: nat)
    requires IsRun(run, steps) && i <= n < |run| && w < WORKERS
    ensures |run[i].workers| == |run[n].workers| == WORKERS
    ensures var a, b := run[i].workers[w].submitted, run[n].workers[w].submitted; |a| <= |b| && b[..|a|] == a
    decreases n
  {
    hide Inv, Apply, Enabled;
    EveryStateIsOk(run, steps, n);
    InvSize(run[n]);
    if i < n {
      RequestsStay(run, steps, i, n - 1, w);
      RunStep(run, steps, n - 1, w);
      var a, b, c := run[i].workers[w].submitted, run[n - 1].workers[w].submitted, run[n].workers[w].submitted;
      assert c[..|a|] == c[..|b|][..|a|];
    }
  }

  /** Every job that took effect was worked on at some earlier step. */
  lemma {:induction false} ExecutedWasWorked(run: seq<State>, steps: seq<Step>, n: nat, w: nat, k: nat)
    requires IsRun(run, steps) && n < |run| && w < WORKERS
    requires |run[n].workers| == WORKERS && k < Executed(run[n].workers[w]) && k < |run[n].workers[w].submitted|
    ensures exists i: nat :: i < n && WorkedAt(run, steps, i, run[n].workers[w].submitted[k])
  {
    hide Inv, Apply, Enabled;
    if n == 0 {
      InitialIdle(run[0].capacity, w);
    } else {
      RunStep(run, steps, n - 1, w);
      var x, x' := run[n - 1].workers[w], run[n].workers[w];
      if k < Executed(x) {
        EveryStateIsOk(run, steps, n - 1);
        ExecutedAreRequested(run[n - 1], w);
        assert x'.submitted[..|x.submitted|][k] == x.submitted[k];
        ExecutedWasWorked(run, steps, n - 1, w, k);
      } else {
        assert x'.submitted[..|x.submitted|][k] == x.submitted[k];
        assert WorkedAt(run, steps, n - 1, x'.submitted[k]);
      }
    }
  }

  lemma InitialIdle(capacity: nat, w: nat)
    requires w < WORKERS
    ensures |Initial(capacity).workers| == WORKERS && Executed(Initial(capacity).workers[w]) == 0
  {}

  lemma ExecutedAreRequested(s: State, w: nat)
    requires Inv(s) && w < WORKERS
    ensures Executed(s.workers[w]) <= |s.workers[w].submitted|
  {
    assert WorkerOk(s.workers[w], w);
  }

  /** Where a request is to be found afterwards. */
  lemma RequestIsAt(run: seq<State>, steps: seq<Step>, a: nat, job: Job, n: nat)
    requires IsRun(run, steps) && SubmittedAt(run, steps, a, job) && n < |run|
    ensures |run[n].workers| == WORKERS && WorkerOf(job.jtype) < WORKERS
    ensures var x := run[n].workers[WorkerOf(job.jtype)].submitted;
            && (a < n ==> job.id < |x| && x[job.id] == job)
            && (n <= a ==> |x| <= job.id)
  {
    hide Inv, Apply, Enabled;
    var w :| AppendedTo(run[a], run[a + 1], w, job);
    EveryStateIsOk(run, steps, a);
    InvSize(run[a]);
    assert Follows(run[a], steps[a], run[a + 1]);
    SubmitsOne(run[a], steps[a].jtype, steps[a].toDrainer, w, job);
    if a < n {
      RequestsStay(run, steps, a + 1, n, w);
      assert run[n].workers[w].submitted[..|run[a + 1].workers[w].submitted|][job.id] == job;
    } else {
      RequestsStay(run, steps, n, a, w);
    }
  }

  lemma OneThread(t: JobType, u: JobType)
    ensures InOrder(t, u) <==> WorkerOf(t) == WorkerOf(u)
  {}

  /**
   When the callback of a completion request has run, every job of its kinds requested before it was carried out: all
   lazy frees for a lazy-free request, all closed files for a close request, all syncs and closed append-only files
   for a sync request.
   */
  lemma CallbackComesLast(run: seq<State>, steps: seq<Step>, n: nat, a: nat, early: Job, b: nat, req: Job)
    requires IsRun(run, steps) && n < |run| && req in run[n].ran
    requires SubmittedAt(run, steps, a, early) && SubmittedAt(run, steps, b, req) && a < b
    requires || (req.jtype == CompLazyFree && early.jtype == LazyFree)
             || (req.jtype == CompCloseFile && early.jtype == CloseFile)
             || (req.jtype == CompAofFsync && (early.jtype == AofFsync || early.jtype == CloseAof))
    ensures exists i: nat :: i < n && WorkedAt(run, steps, i, early)
  {
    hide IsRun, SubmittedAt, WorkedAt, Executed, WorkerOf;
    OneThread(req.jtype, early.jtype);
    var i :| 0 <= i < |run[n].ran| && run[n].ran[i] == req;
    EachOnceAndNotTooEarly(run, steps, n, i);
    RequestIsAt(run, steps, b, req, n);
    RequestIsAt(run, steps, b, req, b);
    RequestIsAt(run, steps, a, early, b);
    RequestIsAt(run, steps, a, early, n);
    ExecutedWasWorked(run, steps, n, WorkerOf(req.jtype), early.id);
  }

  /** bio_worker_t, as callers of bioCreateCompRq name the threads. */
  const CLOSE_FILE_WORKER: nat := 0
  const AOF_FSYNC_WORKER: nat := 1
  const LAZY_FREE_WORKER: nat := 2

  /** The callback of a request created for a named worker comes after the jobs that worker is named for. */
  lemma AssignedComesLast(run: seq<State>, steps: seq<Step>, n: nat, a: nat, early: Job, b: nat, req: Job, worker: nat)
    requires IsRun(run, steps) && n < |run| && req in run[n].ran && CompTypeFor(worker) == [req.jtype]
    requires SubmittedAt(run, steps, a, early) && SubmittedAt(run, steps, b, req) && a < b
    requires || (worker == LAZY_FREE_WORKER && early.jtype == LazyFree)
             || (worker == CLOSE_FILE_WORKER && early.jtype == CloseFile)
             || (worker == AOF_FSYNC_WORKER && (early.jtype == AofFsync || early.jtype == CloseAof))
    ensures exists i: nat :: i < n && WorkedAt(run, steps, i, early)
  {
    hide IsRun, SubmittedAt, WorkedAt;
    CallbackComesLast(run, steps, n, a, early, b, req);
  }

  /** Jobs of these kinds are carried out one after the other, in the order of the requests. */
  lemma CarriedOutInOrder(run: seq<State>, steps: seq<Step>, n: nat, a: nat, early: Job, b: nat, late: Job)
    requires IsRun(run, steps) && WorkedAt(run, steps, n, late)
    requires SubmittedAt(run, steps, a, early) && SubmittedAt(run, steps, b, late) && a < b && InOrder(early.jtype, late.jtype)
    ensures exists i: nat :: i < n && WorkedAt(run, steps, i, early)
  {
    OneThread(early.jtype, late.jtype);
    hide IsRun, SubmittedAt, WorkerOf, Apply, InOrder;
    WorkingOnFirst(run, steps, n, late);
    RequestIsAt(run, steps, b, late, n);
    RequestIsAt(run, steps, b, late, b);
    RequestIsAt(run, steps, a, early, b);
    RequestIsAt(run, steps, a, early, n);
    ExecutedWasWorked(run, steps, n, WorkerOf(late.jtype), early.id);
  }

  lemma WorkingOnFirst(run: seq<State>, steps: seq<Step>, n: nat, job: Job)
    requires IsRun(run, steps) && WorkedAt(run, steps, n, job)
    ensures |run[n].workers| == WORKERS && WorkerOf(job.jtype) < WORKERS
    ensures var x := run[n].workers[WorkerOf(job.jtype)]; job.id == Executed(x) < |x.submitted|
  {
    hide Apply;
    EveryStateIsOk(run, steps, n);
    var w := steps[n].worker;
    assert WorkerOk(run[n].workers[w], w);
  }

  // ---- draining ----

  /** A drain looks at the same worker until it is over. */
  lemma {:induction false} DrainStays(run: seq<State>, steps: seq<Step>, d: nat, e: nat, t: JobType)
    requires IsRun(run, steps) && d < e < |run| && steps[d] == StartDrain(t)
    requires forall k :: d < k <= e ==> run[k].drain != NoDrain
    ensures run[e].drain == DrainChecking(WorkerOf(t)) || run[e].drain == DrainAsleep(WorkerOf(t))
    decreases e
  {
    hide Inv, Apply, Enabled;
    assert Follows(run[e - 1], steps[e - 1], run[e]);
    if d + 1 < e {
      DrainStays(run, steps, d, e - 1, t);
    }
    DrainStep(run[e - 1], steps[e - 1]);
  }

  lemma DrainStep(s: State, step: Step)
    requires |s.workers| == WORKERS && Enabled(s, step)
    ensures step.StartDrain? ==> Apply(s, step).drain == DrainChecking(WorkerOf(step.jtype))
    ensures !step.StartDrain? ==> var d' := Apply(s, step).drain;
              || d' == s.drain || d' == NoDrain || (s.drain.DrainChecking? && d' == DrainAsleep(s.drain.worker))
              || (s.drain.DrainAsleep? && d' == DrainChecking(s.drain.worker))
    ensures step.StartDrain? ==> s.drain == NoDrain
  {
    hide FinishJob, Drop;
    match step
    case Finish(w) => FinishAfter(s, w);
    case _ =>
  }

  /**
   bioDrainWorker, called for jobs of one kind, returns only when every job of that kind requested until then was
   carried out, and none of them is counted as pending any more. The jobs of the kinds done in order with it are
   finished too.
   */
  lemma DrainWaitsForKind(run: seq<State>, steps: seq<Step>, d: nat, e: nat, t: JobType, a: nat, job: Job)
    requires IsRun(run, steps) && d < e < |steps| && steps[d] == StartDrain(t)
    requires forall k :: d < k <= e ==> run[k].drain != NoDrain
    requires run[e + 1].drain == NoDrain
    requires SubmittedAt(run, steps, a, job) && a < e && InOrder(t, job.jtype)
    ensures exists i: nat :: i < e && WorkedAt(run, steps, i, job)
    ensures job.jtype in run[e].counter && run[e].counter[job.jtype] == 0
  {
    OneThread(t, job.jtype);
    hide SubmittedAt, WorkerOf, Apply, InOrder, Enabled, Inv, WorkedAt;
    DrainStays(run, steps, d, e, t);
    EndsByLooking(run, steps, e);
    DrainedMeansDone(run, steps, e);
    RequestIsAt(run, steps, a, job, e);
    ExecutedWasWorked(run, steps, e, WorkerOf(t), job.id);
    PendingIsExact(run, steps, e, job.jtype);
  }

  lemma EndsByLooking(run: seq<State>, steps: seq<Step>, e: nat)
    requires IsRun(run, steps) && e < |steps| && run[e].drain != NoDrain && run[e + 1].drain == NoDrain
    ensures steps[e].DrainLook?
  {
    hide Drop, FinishJob, Signal;
    assert Follows(run[e], steps[e], run[e + 1]);
    var s, step := run[e], steps[e];
    match step
    case Finish(w) => FinishAfter(s, w);
    case Submit(t, toDrainer) => SubmitAfter(s, t, toDrainer);
    case _ =>
  }

  /** The main thread goes on reading until the pipe is empty, and only then takes the completions. */
  lemma TakesWhenPipeIsEmpty(run: seq<State>, steps: seq<Step>, i: nat)
    requires IsRun(run, steps) && i < |steps| && steps[i].Read?
    ensures run[i + 1].reader == if run[i].pipe < 128 then Taking else Reading
    ensures run[i + 1].pipe == if run[i].pipe < 128 then 0 else run[i].pipe - 128
  {
    assert Follows(run[i], steps[i], run[i + 1]);
  }

  // ---- nothing is left undone ----

  lemma {:induction false} CompsHave(jobs: seq<Job>, k: nat)
    requires k < |jobs| && IsComp(jobs[k].jtype)
    ensures jobs[k] in Comps(jobs)
  {
    if k < |jobs| - 1 {
      CompsHave(jobs[..|jobs| - 1], k);
    }
  }

  lemma {:induction false} OfWorkerOnly(jobs: seq<Job>, w: nat, job: Job)
    requires job in OfWorker(jobs, w)
    ensures job in jobs
  {
    if jobs != [] && job in OfWorker(jobs[1..], w) {
      OfWorkerOnly(jobs[1..], w, job);
    }
  }

  /** At the end of a run every requested job was carried out, and the callback of every completion request has run. */
  lemma EveryRequestIsAnswered(run: seq<State>, steps: seq<Step>, a: nat, job: Job)
    requires IsRun(run, steps) && Stuck(run[|steps|]) && SubmittedAt(run, steps, a, job)
    ensures exists i: nat :: i < |steps| && WorkedAt(run, steps, i, job)
    ensures job in run[|steps|].ran <==> job.jtype in {CompCloseFile, CompAofFsync, CompLazyFree}
  {
    var n := |steps|;
    assert a < n by { assert SubmittedAt(run, steps, a, job); }
    hide SubmittedAt, WorkerOf, Apply, Enabled, Inv, WorkedAt, Stuck, IsRun, Comps, OfWorker;
    EveryStateIsOk(run, steps, n);
    StuckMeansFinished(run[n]);
    RequestIsAt(run, steps, a, job, n);
    var w := WorkerOf(job.jtype);
    ExecutedWasWorked(run, steps, n, w, job.id);
    if IsComp(job.jtype) {
      CompsHave(run[n].workers[w].submitted, job.id);
      OfWorkerOnly(run[n].ran, w, job);
    } else if job in run[n].ran {
      var i :| 0 <= i < |run[n].ran| && run[n].ran[i] == job;
      EachOnceAndNotTooEarly(run, steps, n, i);
      assert false;
    }
  }
}
