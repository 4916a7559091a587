/**
 The background job protocol as a state machine.

 A step is one critical section, or one action outside of the locks. The history of a worker is kept beside its
 queue: every job ever submitted to it, and how many of them it has removed.
 */
module Bio {

  datatype JobType = CloseFile | AofFsync | LazyFree | CloseAof | CompCloseFile | CompAofFsync | CompLazyFree

  const WORKERS: nat := 3

  /** bio_job_to_worker */
  function WorkerOf(t: JobType): nat {
    match t
    case CloseFile => 0
    case AofFsync => 1
    case CloseAof => 1
    case LazyFree => 2
    case CompCloseFile => 0
    case CompAofFsync => 1
    case CompLazyFree => 2
  }

  predicate IsComp(t: JobType) {
    t == CompCloseFile || t == CompAofFsync || t == CompLazyFree
  }

  /** The job type bioCreateCompRq chooses for the assigned worker; none for a number that is no worker. */
  function CompTypeFor(worker: nat): (r: seq<JobType>)
    ensures |r| == (if worker < WORKERS then 1 else 0)
    ensures forall t :: t in r <==> IsComp(t) && WorkerOf(t) == worker
  {
    if worker == 0 then [CompCloseFile] else if worker == 1 then [CompAofFsync]
    else if worker == 2 then [CompLazyFree] else []
  }

  /** A job; `id` is its place among all jobs submitted to its worker. */
  datatype Job = Job(id: nat, jtype: JobType)

  /** Where a worker is in its loop: asleep on the condition, about to look at its queue, or busy with a job. */
  datatype Pc = Asleep | Checking | Working(job: Job) | Appended(job: Job) | Finishing(job: Job)

  datatype Worker = Worker(queue: seq<Job>, pc: Pc, submitted: seq<Job>, removed: nat)

  /** bioDrainWorker, called by the main thread. */
  datatype Drain = NoDrain | DrainChecking(worker: nat) | DrainAsleep(worker: nat)

  /** bioPipeReadJobCompList: reading the pipe, about to take the completion list, or running what it took. */
  datatype Reader = Idle | Reading | Taking | Running(batch: seq<Job>)

  datatype State = State(
    workers: seq<Worker>, counter: map<JobType, int>, comp: seq<Job>, pipe: nat, capacity: nat,
    drain: Drain, reader: Reader, ran: seq<Job>)

  datatype Step =
    | Submit(jtype: JobType, toDrainer: bool)
    | Look(worker: nat)
    | Work(worker: nat)
    | Write(worker: nat)
    | Finish(worker: nat)
    | SpuriousWorker(worker: nat)
    | SpuriousDrain
    | StartDrain(jtype: JobType)
    | DrainLook
    | Readable
    | Read
    | Take
    | Callback

  const READ_SIZE: nat := 128

  function Types(): set<JobType> {
    {CloseFile, AofFsync, LazyFree, CloseAof, CompCloseFile, CompAofFsync, CompLazyFree}
  }

  function Initial(capacity: nat): State {
    var thread := Worker([], Checking, [], 0);
    State([thread, thread, thread], map t | t in Types() :: 0, [], 0, capacity, NoDrain, Idle, [])
  }

  predicate Enabled(s: State, step: Step) {
    match step
    case Submit(_, _) => true
    case Look(w) => w < |s.workers| && s.workers[w].pc.Checking?
    case Work(w) => w < |s.workers| && s.workers[w].pc.Working?
    case Write(w) => w < |s.workers| && s.workers[w].pc.Appended?
    case Finish(w) => w < |s.workers| && s.workers[w].pc.Finishing?
    case SpuriousWorker(w) => w < |s.workers| && s.workers[w].pc.Asleep?
    case SpuriousDrain => s.drain.DrainAsleep?
    case StartDrain(_) => s.drain.NoDrain? && (s.reader.Idle? || s.reader.Running?)
    case DrainLook => s.drain.DrainChecking?
    case Readable => s.drain.NoDrain? && s.reader.Idle? && s.pipe > 0
    case Read => s.reader.Reading?
    case Take => s.reader.Taking?
    case Callback => s.drain.NoDrain? && s.reader.Running?
  }

  /** The step is taken by a worker or the main thread on its own, not by a new request or a spurious wake-up. */
  predicate Internal(step: Step) {
    !step.Submit? && !step.StartDrain? && !step.SpuriousWorker? && !step.SpuriousDrain?
  }

  /** The worker's view of the head of its loop, with the lock held. */
  function LookAt(x: Worker): Worker {
    x.(pc := if x.queue == [] then Asleep else Working(x.queue[0]))
  }

  /** listDelNode, for the node of `job`. */
  function Drop(q: seq<Job>, job: Job): seq<Job> {
    if q == [] then [] else if q[0] == job then q[1..] else [q[0]] + Drop(q[1..], job)
  }

  /** pthread_cond_signal on the condition of worker `w`: wakes one of those asleep on it, if there is one. */
  function Signal(s: State, w: nat, toDrainer: bool): State
    requires w < |s.workers|
  {
    if s.drain == DrainAsleep(w) && (toDrainer || !s.workers[w].pc.Asleep?) then s.(drain := DrainChecking(w))
    else if s.workers[w].pc.Asleep? then SetWorker(s, w, s.workers[w].(pc := Checking))
    else s
  }

  function SetWorker(s: State, w: nat, x: Worker): State
    requires w < |s.workers|
  {
    s.(workers := s.workers[w := x])
  }

  function Count(s: State, t: JobType, delta: int): State {
    s.(counter := s.counter[t := (if t in s.counter then s.counter[t] else 0) + delta])
  }

  function Enqueue(x: Worker, t: JobType): Worker {
    var job := Job(|x.submitted|, t);
    x.(queue := x.queue + [job], submitted := x.submitted + [job])
  }

  /** Processing a job: a completion request is appended to the completion list. */
  function WorkOn(s: State, w: nat): State
    requires w < |s.workers| && s.workers[w].pc.Working?
  {
    var x := s.workers[w];
    var job := x.pc.job;
    if IsComp(job.jtype) then SetWorker(s.(comp := s.comp + [job]), w, x.(pc := Appended(job)))
    else SetWorker(s, w, x.(pc := Finishing(job)))
  }

  /**
   The job leaves the queue only now, and a drainer is woken; then the worker looks at its queue again, still
   holding the lock.
   */
  function FinishJob(s: State, w: nat): State
    requires w < |s.workers| && s.workers[w].pc.Finishing?
  {
    var x := s.workers[w];
    var job := x.pc.job;
    var x' := x.(queue := Drop(x.queue, job), removed := x.removed + 1);
    var s' := Signal(Count(SetWorker(s, w, x'), job.jtype, -1), w, true);
    SetWorker(s', w, LookAt(s'.workers[w]))
  }

  /** One read of at most 128 bytes; a full one is followed by another. */
  function ReadPipe(s: State): State {
    var n := if s.pipe < READ_SIZE then s.pipe else READ_SIZE;
    s.(pipe := s.pipe - n, reader := if n == READ_SIZE then Reading else Taking)
  }

  function RunOne(s: State): State
    requires s.reader.Running?
  {
    var b := s.reader.batch;
    if b == [] then s.(reader := Idle) else s.(ran := s.ran + [b[0]], reader := Running(b[1..]))
  }

  function Apply(s: State, step: Step): State
    requires Enabled(s, step) && |s.workers| == WORKERS
  {
    match step
    case Submit(t, toDrainer) =>
      var w := WorkerOf(t);
      Signal(Count(SetWorker(s, w, Enqueue(s.workers[w], t)), t, 1), w, toDrainer)
    case Look(w) => SetWorker(s, w, LookAt(s.workers[w]))
    case Work(w) => WorkOn(s, w)
    case Write(w) =>
      SetWorker(s.(pipe := if s.pipe < s.capacity then s.pipe + 1 else s.pipe), w,
                s.workers[w].(pc := Finishing(s.workers[w].pc.job)))
    case Finish(w) => FinishJob(s, w)
    case SpuriousWorker(w) => SetWorker(s, w, s.workers[w].(pc := Checking))
    case SpuriousDrain => s.(drain := DrainChecking(s.drain.worker))
    case StartDrain(t) => s.(drain := DrainChecking(WorkerOf(t)))
    case DrainLook =>
      var w := s.drain.worker;
      if w < |s.workers| && s.workers[w].queue != [] then s.(drain := DrainAsleep(w)) else s.(drain := NoDrain)
    case Readable => s.(reader := Reading)
    case Read => ReadPipe(s)
    case Take => if s.comp == [] then s.(reader := Idle) else s.(reader := Running(s.comp), comp := [])
    case Callback => RunOne(s)
  }
}
