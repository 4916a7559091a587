/** Whole runs of the background job protocol: no completion is lost, repeated or early, and none waits forever. */
module BioRuns {
  import opened Bio
  import opened BioSafety

  /** A run from the start: the states, and the steps between them. */
  ghost predicate IsRun(run: seq<State>, steps: seq<Step>) {
    && |run| == |steps| + 1 && run[0].capacity > 0 && run[0] == Initial(run[0].capacity)
    && forall i :: 0 <= i < |steps| ==> Follows(run[i], steps[i], run[i + 1])
  }

  ghost predicate Follows(s: State, step: Step, s': State) {
    |s.workers| == WORKERS && Enabled(s, step) && s' == Apply(s, step)
  }

  lemma {:induction false} EveryStateIsOk(run: seq<State>, steps: seq<Step>, i: nat)
    requires IsRun(run, steps) && i < |run|
    ensures Inv(run[i])
  {
    hide Inv, Apply, Enabled, Initial;
    if i == 0 {
      InitialIsOk(run[0].capacity);
    } else {
      EveryStateIsOk(run, steps, i - 1);
      assert Follows(run[i - 1], steps[i - 1], run[i]);
      StepKeeps(run[i - 1], steps[i - 1]);
    }
  }

  /** A completion in the list never lies there unannounced. */
  lemma NoCompletionIsForgotten(run: seq<State>, steps: seq<Step>, i: nat)
    requires IsRun(run, steps) && i < |run| && run[i].comp != []
    ensures run[i].pipe > 0 || run[i].reader.Reading? || run[i].reader.Taking?
         || exists w :: 0 <= w < |run[i].workers| && run[i].workers[w].pc.Appended?
  {
    EveryStateIsOk(run, steps, i);
  }

  /** The count that bioPendingJobsOfType returns is the number of jobs of the type not yet removed. */
  lemma PendingIsExact(run: seq<State>, steps: seq<Step>, i: nat, t: JobType)
    requires IsRun(run, steps) && i < |run|
    ensures |run[i].workers| == WORKERS && t in run[i].counter
    ensures var x := run[i].workers[WorkerOf(t)];
            && x.removed <= |x.submitted|
            && run[i].counter[t] == CountOf(x.submitted[x.removed..], t)
  {
    EveryStateIsOk(run, steps, i);
    assert WorkerOk(run[i].workers[WorkerOf(t)], WorkerOf(t));
  }

  /** When bioDrainWorker returns, every job ever submitted to the worker has been processed and removed. */
  lemma DrainedMeansDone(run: seq<State>, steps: seq<Step>, i: nat)
    requires IsRun(run, steps) && i < |steps| && steps[i].DrainLook? && run[i + 1].drain == NoDrain
    ensures run[i].drain.DrainChecking? && run[i].drain.worker < |run[i].workers|
    ensures var x := run[i].workers[run[i].drain.worker]; x.removed == |x.submitted| && !Busy(x.pc)
  {
    EveryStateIsOk(run, steps, i);
    assert Follows(run[i], steps[i], run[i + 1]);
    var w := run[i].drain.worker;
    assert WorkerOk(run[i].workers[w], w);
  }

  // ---- exactly once, and not too early ----

  lemma {:induction false} CompsAreThere(jobs: seq<Job>, job: Job)
    requires job in Comps(jobs)
    ensures job in jobs && IsComp(job.jtype)
  {
    var last := |jobs| - 1;
    if job in Comps(jobs[..last]) {
      CompsAreThere(jobs[..last], job);
    }
  }

  ghost predicate Numbered(jobs: seq<Job>) {
    forall i :: 0 <= i < |jobs| ==> jobs[i].id == i
  }

  ghost predicate Rising(jobs: seq<Job>) {
    forall i, j :: 0 <= i < j < |jobs| ==> jobs[i].id < jobs[j].id
  }

  lemma {:induction false} CompsRise(jobs: seq<Job>)
    requires Numbered(jobs)
    ensures Rising(Comps(jobs)) && forall j :: j in Comps(jobs) ==> j.id < |jobs|
  {
    if jobs != [] {
      var last := |jobs| - 1;
      CompsRise(jobs[..last]);
      var front := Comps(jobs[..last]);
      assert forall i :: 0 <= i < |front| ==> front[i] in front;
    }
  }

  lemma {:induction false} OfWorkerHas(jobs: seq<Job>, w: nat, j: nat)
    requires j < |jobs| && WorkerOf(jobs[j].jtype) == w
    ensures jobs[j] in OfWorker(jobs, w)
  {
    if j > 0 {
      OfWorkerHas(jobs[1..], w, j - 1);
    }
  }

  lemma RisingParts(a: seq<Job>, b: seq<Job>)
    requires Rising(a + b)
    ensures Rising(b) && forall x, y :: x in a && y in b ==> x.id < y.id
  {
    var all := a + b;
    assert forall k :: 0 <= k < |b| ==> b[k] == all[|a| + k];
    forall x, y | x in a && y in b ensures x.id < y.id {
      var i :| 0 <= i < |a| && a[i] == x;
      var j :| 0 <= j < |b| && b[j] == y;
      assert all[i].id < all[|a| + j].id;
    }
  }

  /** What rises among the jobs of one worker rises in the whole list. */
  lemma {:induction false} RisesInOrder(jobs: seq<Job>, w: nat, i: nat, j: nat)
    requires i < j < |jobs| && WorkerOf(jobs[i].jtype) == WorkerOf(jobs[j].jtype) == w && Rising(OfWorker(jobs, w))
    ensures jobs[i].id < jobs[j].id
  {
    hide Rising;
    RisingParts(if WorkerOf(jobs[0].jtype) == w then [jobs[0]] else [], OfWorker(jobs[1..], w));
    if i == 0 {
      OfWorkerHas(jobs[1..], w, j - 1);
    } else {
      RisesInOrder(jobs[1..], w, i - 1, j - 1);
    }
  }

  /** The completions of each worker, in the order in which they are handed over. */
  lemma HandedOverRises(s: State, w: nat)
    requires Inv(s) && w < WORKERS
    ensures Rising(OfWorker(HandedOver(s), w))
    ensures forall j :: j in OfWorker(HandedOver(s), w) ==>
              IsComp(j.jtype) && j.id < Executed(s.workers[w]) <= |s.workers[w].submitted| && s.workers[w].submitted[j.id] == j
  {
    assert HandedOverBy(s, w) && WorkerOk(s.workers[w], w);
    var done := s.workers[w].submitted[..Executed(s.workers[w])];
    CompsRise(done);
    forall j | j in Comps(done) ensures j in done && IsComp(j.jtype) {
      CompsAreThere(done, j);
    }
  }

  /**
   Every callback that ran belongs to a completion request that was submitted; all jobs submitted earlier to the same
   worker have taken effect; and it ran once. The callbacks of one worker ran in the order of the requests.
   */
  lemma EachOnceAndNotTooEarly(run: seq<State>, steps: seq<Step>, n: nat, i: nat)
    requires IsRun(run, steps) && n < |run| && i < |run[n].ran|
    ensures |run[n].workers| == WORKERS
    ensures var job := run[n].ran[i]; var x := run[n].workers[WorkerOf(job.jtype)];
            && IsComp(job.jtype) && job.id < Executed(x) <= |x.submitted| && x.submitted[job.id] == job
            && (forall j :: 0 <= j < i && WorkerOf(run[n].ran[j].jtype) == WorkerOf(job.jtype) ==> run[n].ran[j].id < job.id)
            && (forall j :: 0 <= j < i ==> run[n].ran[j] != job)
  {
    EveryStateIsOk(run, steps, n);
    var s := run[n];
    var w := WorkerOf(s.ran[i].jtype);
    HandedOverRises(s, w);
    assert forall k :: 0 <= k < |s.ran| ==> HandedOver(s)[k] == s.ran[k];
    OfWorkerHas(HandedOver(s), w, i);
    forall j | 0 <= j < i && WorkerOf(s.ran[j].jtype) == w ensures s.ran[j].id < s.ran[i].id {
      RisesInOrder(HandedOver(s), w, j, i);
    }
  }

  // ---- nothing waits forever ----

  ghost predicate Stuck(s: State) {
    forall step :: Internal(step) ==> !Enabled(s, step)
  }

  lemma StuckWorker(s: State, w: nat)
    requires Inv(s) && Stuck(s) && w < WORKERS
    ensures var x := s.workers[w]; x.pc == Asleep && x.queue == [] && x.removed == |x.submitted|
  {
    assert !Enabled(s, Look(w)) && !Enabled(s, Work(w)) && !Enabled(s, Write(w)) && !Enabled(s, Finish(w));
    assert WorkerOk(s.workers[w], w);
  }

  lemma StuckMain(s: State)
    requires Inv(s) && Stuck(s) && forall w :: 0 <= w < WORKERS ==> s.workers[w].pc == Asleep && s.workers[w].queue == []
    ensures s.comp == [] && s.reader == Idle && s.drain == NoDrain
  {
    hide HandoverOk, CountersOk, WorkersOk;
    InvSize(s);
    assert !Enabled(s, DrainLook) && !Enabled(s, Readable) && !Enabled(s, Read) && !Enabled(s, Take) && !Enabled(s, Callback);
  }

  /** When no thread can go on, all that was requested is done: nobody is stuck waiting. */
  lemma StuckMeansFinished(s: State)
    requires Inv(s) && Stuck(s)
    ensures |s.workers| == WORKERS && s.comp == [] && s.reader == Idle && s.drain == NoDrain
    ensures forall w :: 0 <= w < WORKERS ==>
              && s.workers[w].queue == [] && s.workers[w].removed == |s.workers[w].submitted|
              && OfWorker(s.ran, w) == Comps(s.workers[w].submitted)
  {
    hide Stuck, CountersOk, WakeOk, Announced, WorkerOk, OfWorker, Comps;
    forall w | 0 <= w < WORKERS ensures var x := s.workers[w]; x.pc == Asleep && x.queue == [] && x.removed == |x.submitted| {
      StuckWorker(s, w);
    }
    StuckMain(s);
    assert s.ran + [] + [] == s.ran;
    forall w | 0 <= w < WORKERS ensures OfWorker(s.ran, w) == Comps(s.workers[w].submitted) {
      assert HandedOverBy(s, w);
      assert s.workers[w].submitted[..|s.workers[w].submitted|] == s.workers[w].submitted;
    }
  }

  function PcWork(pc: Pc): nat {
    match pc case Asleep => 0 case Checking => 31 case Working(_) => 30 case Appended(_) => 25 case Finishing(_) => 10
  }

  function WorkerWork(x: Worker): nat {
    40 * |x.queue| + PcWork(x.pc)
  }

  function ReaderWork(r: Reader, pipe: nat): nat {
    10 * pipe + match r
                case Idle => 4
                case Reading => if pipe > 0 then 3 else 7
                case Taking => 6
                case Running(batch) => 5 + 2 * |batch|
  }

  function DrainWork(d: Drain): nat {
    match d case NoDrain => 0 case DrainAsleep(_) => 1 case DrainChecking(_) => 2
  }

  /** How many steps may still be taken without new requests. */
  function WorkLeft(s: State): nat
    requires |s.workers| == WORKERS
  {
    WorkerWork(s.workers[0]) + WorkerWork(s.workers[1]) + WorkerWork(s.workers[2])
    + ReaderWork(s.reader, s.pipe) + 2 * |s.comp| + DrainWork(s.drain)
  }

  lemma WorkAfterMove(s: State, w: nat, x: Worker)
    requires |s.workers| == WORKERS && w < WORKERS
    ensures |SetWorker(s, w, x).workers| == WORKERS
    ensures WorkLeft(SetWorker(s, w, x)) == WorkLeft(s) - WorkerWork(s.workers[w]) + WorkerWork(x)
  {
    hide WorkerWork, ReaderWork, DrainWork;
  }

  lemma WorkerStepsDecrease(s: State, step: Step)
    requires |s.workers| == WORKERS && Enabled(s, step) && (step.Look? || step.Work? || step.Write?)
    ensures |Apply(s, step).workers| == WORKERS && WorkLeft(Apply(s, step)) < WorkLeft(s)
  {
    hide WorkLeft, SetWorker;
    var w := step.worker;
    var x := s.workers[w];
    match step
    case Look(_) => WorkAfterMove(s, w, LookAt(x));
    case Work(_) =>
      var job := x.pc.job;
      if IsComp(job.jtype) {
        ListedWork(s, job);
        WorkAfterMove(s.(comp := s.comp + [job]), w, x.(pc := Appended(job)));
      } else {
        WorkAfterMove(s, w, x.(pc := Finishing(job)));
      }
    case Write(_) =>
      PipedWork(s, if s.pipe < s.capacity then s.pipe + 1 else s.pipe);
      WorkAfterMove(s.(pipe := if s.pipe < s.capacity then s.pipe + 1 else s.pipe), w, x.(pc := Finishing(x.pc.job)));
  }

  lemma ListedWork(s: State, job: Job)
    requires |s.workers| == WORKERS
    ensures WorkLeft(s.(comp := s.comp + [job])) == WorkLeft(s) + 2
  {}

  lemma PipedWork(s: State, pipe: nat)
    requires |s.workers| == WORKERS && s.pipe <= pipe <= s.pipe + 1
    ensures WorkLeft(s.(pipe := pipe)) <= WorkLeft(s) + 10
  {}

  lemma FinishDecreases(s: State, w: nat)
    requires Inv(s) && Enabled(s, Finish(w))
    ensures |Apply(s, Finish(w)).workers| == WORKERS && WorkLeft(Apply(s, Finish(w))) < WorkLeft(s)
  {
    assert WorkerOk(s.workers[w], w);
    ShorterIsOk(s.workers[w], w);
    hide Apply, WorkerOk, Inv, Shorter;
    FinishAfter(s, w);
  }

  lemma MainStepsDecrease(s: State, step: Step)
    requires Inv(s) && Enabled(s, step) && Internal(step) && (step.DrainLook? || step.Readable? || step.Read? || step.Take? || step.Callback?)
    ensures |Apply(s, step).workers| == WORKERS && WorkLeft(Apply(s, step)) < WorkLeft(s)
  {
    hide WorkerWork;
  }

  lemma InternalStepsDecrease(s: State, step: Step)
    requires Inv(s) && Enabled(s, step) && Internal(step)
    ensures |Apply(s, step).workers| == WORKERS && WorkLeft(Apply(s, step)) < WorkLeft(s)
  {
    hide WorkLeft, Inv, Apply;
    InvSize(s);
    match step
    case Finish(w) => FinishDecreases(s, w);
    case Look(_) => WorkerStepsDecrease(s, step);
    case Work(_) => WorkerStepsDecrease(s, step);
    case Write(_) => WorkerStepsDecrease(s, step);
    case DrainLook => MainStepsDecrease(s, step);
    case Readable => MainStepsDecrease(s, step);
    case Read => MainStepsDecrease(s, step);
    case Take => MainStepsDecrease(s, step);
    case Callback => MainStepsDecrease(s, step);
  }

  /** Once requests stop, only so many steps are left. */
  lemma {:induction false} RunsComeToRest(run: seq<State>, steps: seq<Step>, k: nat, n: nat)
    requires IsRun(run, steps) && k <= n < |run| && forall i :: k <= i < n ==> Internal(steps[i])
    ensures |run[k].workers| == |run[n].workers| == WORKERS && n - k + WorkLeft(run[n]) <= WorkLeft(run[k])
    decreases n
  {
    hide WorkLeft, Inv, Apply, Internal, Enabled;
    EveryStateIsOk(run, steps, n);
    InvSize(run[n]);
    if n > k {
      RunsComeToRest(run, steps, k, n - 1);
      EveryStateIsOk(run, steps, n - 1);
      assert Follows(run[n - 1], steps[n - 1], run[n]);
      InternalStepsDecrease(run[n - 1], steps[n - 1]);
    }
  }

  /**
   Every completion request is answered: when the requests stop, the run ends after at most so many steps, and at its
   end each worker's requests have all been called back, each once and in order.
   */
  lemma EveryCompletionIsRun(run: seq<State>, steps: seq<Step>, k: nat)
    requires IsRun(run, steps) && k < |run| && forall i :: k <= i < |steps| ==> Internal(steps[i])
    requires Stuck(run[|steps|])
    ensures |run[k].workers| == WORKERS && |steps| - k <= WorkLeft(run[k])
    ensures |run[|steps|].workers| == WORKERS
    ensures forall w :: 0 <= w < WORKERS ==> OfWorker(run[|steps|].ran, w) == Comps(run[|steps|].workers[w].submitted)
  {
    hide WorkLeft, Inv, Apply, Internal, Enabled, Stuck;
    EveryStateIsOk(run, steps, |steps|);
    StuckMeansFinished(run[|steps|]);
    RunsComeToRest(run, steps, k, |steps|);
  }
}
