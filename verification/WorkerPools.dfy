/** The worker pool as a machine over channel operations: a bounded queue of jobs, and workers that
    hold one slot for every connection they serve. */
module WorkerPools {
  import opened FiniteSums

  /** An accepted connection. */
  type Job = nat

  datatype Config = Config(workers: nat, connections: nat, queueSize: nat)

  /** Where a worker's loop stands: at the queue, waiting for a slot, waiting for its handlers, gone. */
  datatype Phase = Ranging | Holding(job: Job) | Draining | Returned

  /** `running` handlers own a slot each; `ending` ones have given it back but are still waited for. */
  datatype Worker = Worker(phase: Phase, running: set<Job>, ending: set<Job>, taken: set<Job>)

  /** `accepted` and `started` record the jobs in the order they were queued and taken. */
  datatype Pool = Pool(queue: seq<Job>, closed: bool, workers: seq<Worker>, accepted: seq<Job>, started: seq<Job>, finished: set<Job>)

  datatype Step =
    | Submit(job: Job)
    | Handoff(job: Job, w: nat)
    | Take(w: nat)
    | Acquire(w: nat)
    | Release(w: nat, job: Job)
    | Done(w: nat, job: Job)
    | Close
    | Leave(w: nat)
    | Return(w: nat)

  function NewPool(c: Config): Pool {
    Pool([], false, seq(c.workers, _ => Worker(Ranging, {}, {}, {})), [], [], {})
  }

  /** When a step can happen. A queue without a buffer only passes jobs on to a worker at the queue. */
  ghost predicate Enabled(c: Config, p: Pool, step: Step) {
    match step
    case Submit(job) => !p.closed && job !in p.accepted && |p.queue| < c.queueSize
    case Handoff(job, w) =>
      !p.closed && job !in p.accepted && p.queue == [] && w < |p.workers| && p.workers[w].phase == Ranging
    case Take(w) => w < |p.workers| && p.workers[w].phase == Ranging && p.queue != []
    case Acquire(w) => w < |p.workers| && p.workers[w].phase.Holding? && |p.workers[w].running| < c.connections
    case Release(w, job) => w < |p.workers| && job in p.workers[w].running
    case Done(w, job) => w < |p.workers| && job in p.workers[w].ending
    case Close => !p.closed
    case Leave(w) => w < |p.workers| && p.workers[w].phase == Ranging && p.closed && p.queue == []
    case Return(w) =>
      w < |p.workers| && p.workers[w].phase == Draining && p.workers[w].running == {} && p.workers[w].ending == {}
  }

  function Holds(worker: Worker, job: Job): Worker {
    worker.(phase := Holding(job), taken := worker.taken + {job})
  }

  ghost function Next(c: Config, p: Pool, step: Step): Pool
    requires Enabled(c, p, step)
  {
    match step
    case Submit(job) => p.(queue := p.queue + [job], accepted := p.accepted + [job])
    case Handoff(job, w) =>
      p.(workers := p.workers[w := Holds(p.workers[w], job)], accepted := p.accepted + [job], started := p.started + [job])
    case Take(w) =>
      var job := p.queue[0];
      p.(queue := p.queue[1..], workers := p.workers[w := Holds(p.workers[w], job)], started := p.started + [job])
    case Acquire(w) =>
      var worker := p.workers[w];
      p.(workers := p.workers[w := worker.(phase := Ranging, running := worker.running + {worker.phase.job})])
    case Release(w, job) =>
      var worker := p.workers[w];
      p.(workers := p.workers[w := worker.(running := worker.running - {job}, ending := worker.ending + {job})])
    case Done(w, job) =>
      var worker := p.workers[w];
      p.(workers := p.workers[w := worker.(ending := worker.ending - {job})], finished := p.finished + {job})
    case Close => p.(closed := true)
    case Leave(w) => p.(workers := p.workers[w := p.workers[w].(phase := Draining)])
    case Return(w) => p.(workers := p.workers[w := p.workers[w].(phase := Returned)])
  }

  // ----- where the jobs are -----

  /** How often a worker has a job: held, running or ending. */
  ghost function InWorker(worker: Worker, job: Job): nat {
    (if worker.phase == Holding(job) then 1 else 0)
    + (if job in worker.running then 1 else 0) + (if job in worker.ending then 1 else 0)
  }

  ghost function InWorkers(workers: seq<Worker>, job: Job): nat {
    if workers == [] then 0 else InWorker(workers[0], job) + InWorkers(workers[1..], job)
  }

  ghost function Times(jobs: seq<Job>, job: Job): nat {
    if jobs == [] then 0 else (if jobs[0] == job then 1 else 0) + Times(jobs[1..], job)
  }

  lemma {:induction false} TimesAppend(jobs: seq<Job>, one: Job, job: Job)
    ensures Times(jobs + [one], job) == Times(jobs, job) + if one == job then 1 else 0
  {
    if jobs != [] {
      TimesAppend(jobs[1..], one, job);
      assert (jobs + [one])[1..] == jobs[1..] + [one];
    }
  }

  lemma {:induction false} TimesIn(jobs: seq<Job>, job: Job)
    ensures job in jobs <==> Times(jobs, job) > 0
  {
    if jobs != [] {
      TimesIn(jobs[1..], job);
    }
  }

  lemma {:induction false} InWorkersUpdate(workers: seq<Worker>, w: nat, worker: Worker, job: Job)
    requires w < |workers|
    ensures InWorkers(workers[w := worker], job) == InWorkers(workers, job) - InWorker(workers[w], job) + InWorker(worker, job)
    ensures InWorker(workers[w], job) <= InWorkers(workers, job)
  {
    hide InWorker;
    var now := workers[w := worker];
    if w == 0 {
      assert now[1..] == workers[1..];
    } else {
      InWorkersUpdate(workers[1..], w - 1, worker, job);
      assert now[1..] == workers[1..][w - 1 := worker];
    }
  }

  /** Every accepted job is in exactly one place: queued, held, running, ending or finished. */
  ghost predicate PlacedOnce(p: Pool, job: Job) {
    && Times(p.queue, job) + InWorkers(p.workers, job) + (if job in p.finished then 1 else 0) == Times(p.accepted, job)
    && Times(p.accepted, job) <= 1
  }

  ghost predicate Placed(p: Pool) {
    p.accepted == p.started + p.queue && forall job :: PlacedOnce(p, job)
  }

  /** A worker's books: its slots, and what it still owes of the jobs it took. */
  ghost predicate Orderly(c: Config, p: Pool, worker: Worker) {
    && |worker.running| <= c.connections
    && (worker.phase.Draining? || worker.phase.Returned? ==> p.closed && p.queue == [])
    && (worker.phase.Returned? ==> worker.running == {} && worker.ending == {})
    && forall job :: job in worker.taken ==> InWorker(worker, job) > 0 || job in p.finished
  }

  ghost predicate Inv(c: Config, p: Pool) {
    && |p.workers| == c.workers && |p.queue| <= c.queueSize && Placed(p)
    && forall w :: 0 <= w < |p.workers| ==> Orderly(c, p, p.workers[w])
  }

  lemma {:induction false} NoJobsYet(workers: seq<Worker>, job: Job)
    requires forall w :: 0 <= w < |workers| ==> InWorker(workers[w], job) == 0
    ensures InWorkers(workers, job) == 0
  {
    if workers != [] {
      NoJobsYet(workers[1..], job);
    }
  }

  lemma NewPoolInv(c: Config)
    ensures Inv(c, NewPool(c))
  {
    forall job ensures PlacedOnce(NewPool(c), job) {
      NoJobsYet(NewPool(c).workers, job);
    }
  }

  /** Moving jobs between the places keeps every job in exactly one. */
  lemma StepPlacedOnce(c: Config, p: Pool, step: Step, job: Job)
    requires Enabled(c, p, step) && Placed(p)
    ensures PlacedOnce(Next(c, p, step), job)
  {
    var q := Next(c, p, step);
    assert PlacedOnce(p, job);
    if step.Submit? || step.Handoff? {
      TimesAppend(p.accepted, step.job, job);
      TimesAppend(p.queue, step.job, job);
      TimesIn(p.accepted, job);
    }
    if !step.Submit? && !step.Close? {
      InWorkersUpdate(p.workers, step.w, q.workers[step.w], job);
      assert q.workers == p.workers[step.w := q.workers[step.w]];
    }
  }

  lemma StepPlaced(c: Config, p: Pool, step: Step)
    requires Enabled(c, p, step) && Placed(p)
    ensures Placed(Next(c, p, step))
  {
    hide PlacedOnce;
    forall job ensures PlacedOnce(Next(c, p, step), job) {
      StepPlacedOnce(c, p, step, job);
    }
    assert p.queue != [] ==> p.queue == [p.queue[0]] + p.queue[1..];
  }

  /** Finished jobs stay finished, and a closed and drained queue stays so. */
  lemma StepLasts(c: Config, p: Pool, step: Step)
    requires Enabled(c, p, step)
    ensures var q := Next(c, p, step);
      && p.finished <= q.finished && |q.workers| == |p.workers| && (p.closed && p.queue == [] ==> q.closed && q.queue == [])
      && forall w :: 0 <= w < |p.workers| && (step.Submit? || step.Close? || w != step.w) ==> q.workers[w] == p.workers[w]
  {
  }

  lemma StaysOrderly(c: Config, p: Pool, q: Pool, worker: Worker)
    requires Orderly(c, p, worker) && p.finished <= q.finished && (p.closed && p.queue == [] ==> q.closed && q.queue == [])
    ensures Orderly(c, q, worker)
  {
  }

  lemma MoverOrderly(c: Config, p: Pool, step: Step)
    requires Enabled(c, p, step) && !step.Submit? && !step.Close? && Orderly(c, p, p.workers[step.w])
    ensures Orderly(c, Next(c, p, step), Next(c, p, step).workers[step.w])
  {
  }

  lemma StepOrderly(c: Config, p: Pool, step: Step, w: nat)
    requires Inv(c, p) && Enabled(c, p, step) && w < |p.workers|
    ensures |Next(c, p, step).workers| == |p.workers| && Orderly(c, Next(c, p, step), Next(c, p, step).workers[w])
  {
    assert Orderly(c, p, p.workers[w]);
    StepLasts(c, p, step);
    hide Inv, Next, Orderly;
    if !step.Submit? && !step.Close? && w == step.w {
      MoverOrderly(c, p, step);
    } else {
      StaysOrderly(c, p, Next(c, p, step), p.workers[w]);
    }
  }

  /** Every step keeps the invariant. */
  lemma StepKeeps(c: Config, p: Pool, step: Step)
    requires Inv(c, p) && Enabled(c, p, step)
    ensures Inv(c, Next(c, p, step))
  {
    StepPlaced(c, p, step);
    forall w | 0 <= w < |p.workers| ensures Orderly(c, Next(c, p, step), Next(c, p, step).workers[w]) {
      StepOrderly(c, p, step, w);
    }
    hide Placed, Orderly;
  }

  // ----- every interleaving -----

  ghost predicate Run(c: Config, p: Pool, steps: seq<Step>)
    decreases |steps|
  {
    steps == [] || (Enabled(c, p, steps[0]) && Run(c, Next(c, p, steps[0]), steps[1..]))
  }

  ghost function After(c: Config, p: Pool, steps: seq<Step>): Pool
    requires Run(c, p, steps)
    decreases |steps|
  {
    if steps == [] then p else After(c, Next(c, p, steps[0]), steps[1..])
  }

  lemma {:induction false} RunKeeps(c: Config, p: Pool, steps: seq<Step>)
    requires Inv(c, p) && Run(c, p, steps)
    ensures Inv(c, After(c, p, steps))
    decreases |steps|
  {
    hide Inv, Enabled, Next;
    if steps != [] {
      StepKeeps(c, p, steps[0]);
      RunKeeps(c, Next(c, p, steps[0]), steps[1..]);
    }
  }

  /** After any interleaving each accepted job is in one place only, jobs were taken in the order they
      were accepted, and no worker serves more connections than it has slots. */
  lemma AnyRun(c: Config, steps: seq<Step>)
    requires Run(c, NewPool(c), steps)
    ensures var p := After(c, NewPool(c), steps);
      && p.accepted == p.started + p.queue && |p.queue| <= c.queueSize && (forall job :: PlacedOnce(p, job))
      && forall w :: 0 <= w < |p.workers| ==> |p.workers[w].running| <= c.connections
  {
    NewPoolInv(c);
    RunKeeps(c, NewPool(c), steps);
    hide PlacedOnce, Run, After;
    assert forall w :: 0 <= w < c.workers ==> Orderly(c, After(c, NewPool(c), steps), After(c, NewPool(c), steps).workers[w]);
  }

  // ----- how many jobs are unfinished -----

  ghost function Busy(worker: Worker): set<Job> {
    (if worker.phase.Holding? then {worker.phase.job} else {}) + worker.running
  }

  ghost function BusyIn(workers: seq<Worker>): set<Job> {
    if workers == [] then {} else Busy(workers[0]) + BusyIn(workers[1..])
  }

  ghost function EndingIn(workers: seq<Worker>): set<Job> {
    if workers == [] then {} else workers[0].ending + EndingIn(workers[1..])
  }

  ghost function JobSet(jobs: seq<Job>): set<Job> {
    set job | job in jobs
  }

  /** Accepted jobs whose handler has not yet returned. */
  ghost function Unfinished(p: Pool): set<Job> {
    JobSet(p.accepted) - p.finished - EndingIn(p.workers)
  }

  lemma {:induction false} InWorkersWhere(workers: seq<Worker>, job: Job)
    ensures InWorkers(workers, job) > 0 ==> job in BusyIn(workers) || job in EndingIn(workers)
  {
    if workers != [] {
      InWorkersWhere(workers[1..], job);
    }
  }

  lemma BusyOne(worker: Worker)
    ensures |Busy(worker)| <= |worker.running| + 1
  {
    CardinalityUnion(if worker.phase.Holding? then {worker.phase.job} else {}, worker.running);
  }

  lemma {:induction false} BusyBound(c: Config, workers: seq<Worker>)
    requires forall w :: 0 <= w < |workers| ==> |workers[w].running| <= c.connections
    ensures |BusyIn(workers)| <= |workers| * (c.connections + 1)
  {
    hide Busy;
    if workers != [] {
      BusyBound(c, workers[1..]);
      BusyOne(workers[0]);
      CardinalityUnion(Busy(workers[0]), BusyIn(workers[1..]));
      OneMoreTime(c.connections + 1, |workers| - 1);
    }
  }

  lemma {:induction false} QueueBound(jobs: seq<Job>)
    ensures |JobSet(jobs)| <= |jobs|
  {
    if jobs != [] {
      QueueBound(jobs[1..]);
      assert JobSet(jobs) == {jobs[0]} + JobSet(jobs[1..]);
      CardinalityUnion({jobs[0]}, JobSet(jobs[1..]));
    }
  }

  /** The pool never holds more unfinished jobs than its queue, its slots and one waiting job a worker. */
  lemma UnfinishedBound(c: Config, p: Pool)
    requires Inv(c, p)
    ensures |Unfinished(p)| <= c.queueSize + c.workers * (c.connections + 1)
  {
    var queued := JobSet(p.queue);
    forall job | job in Unfinished(p) ensures job in queued + BusyIn(p.workers) {
      assert PlacedOnce(p, job);
      TimesIn(p.accepted, job);
      TimesIn(p.queue, job);
      InWorkersWhere(p.workers, job);
    }
    BusyAtMost(c, p);
    hide Inv, Unfinished, JobSet, BusyIn;
    CardinalityBelow(Unfinished(p), queued + BusyIn(p.workers));
    CardinalityUnion(queued, BusyIn(p.workers));
    QueueBound(p.queue);
  }

  lemma BusyAtMost(c: Config, p: Pool)
    requires Inv(c, p)
    ensures |BusyIn(p.workers)| <= c.workers * (c.connections + 1) && |p.queue| <= c.queueSize
  {
    forall w | 0 <= w < |p.workers| ensures |p.workers[w].running| <= c.connections {
      assert Orderly(c, p, p.workers[w]);
    }
    BusyBound(c, p.workers);
  }

  /** So it is after every interleaving. */
  lemma AnyRunBounded(c: Config, steps: seq<Step>)
    requires Run(c, NewPool(c), steps)
    ensures |Unfinished(After(c, NewPool(c), steps))| <= c.queueSize + c.workers * (c.connections + 1)
  {
    NewPoolInv(c);
    RunKeeps(c, NewPool(c), steps);
    hide Inv, Unfinished, Run;
    UnfinishedBound(c, After(c, NewPool(c), steps));
  }

  /** And of whatever run, a worker that has returned has seen all its jobs through, and once all have,
      exactly the accepted jobs are finished. */
  lemma AnyRunDrains(c: Config, steps: seq<Step>, w: nat)
    requires Run(c, NewPool(c), steps) && w < |After(c, NewPool(c), steps).workers|
    requires After(c, NewPool(c), steps).workers[w].phase.Returned?
    ensures var p := After(c, NewPool(c), steps);
      && p.closed && p.queue == [] && (forall job :: job in p.workers[w].taken ==> job in p.finished)
      && ((forall v :: 0 <= v < |p.workers| ==> p.workers[v].phase.Returned?) ==> p.finished == JobSet(p.accepted))
  {
    NewPoolInv(c);
    RunKeeps(c, NewPool(c), steps);
    var p := After(c, NewPool(c), steps);
    ReturnedMeansDone(c, p, w);
    hide Placed, Run;
    if forall v :: 0 <= v < |p.workers| ==> p.workers[v].phase.Returned? {
      AllReturnedMeansAllDone(c, p);
    }
  }

  // ----- shutting down -----

  /** A worker's loop returns only when the queue is closed and drained and every job it took is done. */
  lemma ReturnedMeansDone(c: Config, p: Pool, w: nat)
    requires Inv(c, p) && w < |p.workers| && p.workers[w].phase.Returned?
    ensures p.closed && p.queue == [] && forall job :: job in p.workers[w].taken ==> job in p.finished
  {
    assert Orderly(c, p, p.workers[w]);
  }

  lemma {:induction false} NoneLeft(workers: seq<Worker>, job: Job)
    requires forall w :: 0 <= w < |workers| ==> workers[w].phase.Returned? && workers[w].running == {} && workers[w].ending == {}
    ensures InWorkers(workers, job) == 0
  {
    if workers != [] {
      NoneLeft(workers[1..], job);
    }
  }

  /** Once every worker has returned, every job ever accepted is finished, and no other. */
  lemma AllReturnedMeansAllDone(c: Config, p: Pool)
    requires Inv(c, p) && c.workers > 0 && forall w :: 0 <= w < |p.workers| ==> p.workers[w].phase.Returned?
    ensures p.finished == JobSet(p.accepted)
  {
    forall w | 0 <= w < |p.workers| ensures p.workers[w].running == {} && p.workers[w].ending == {} && p.queue == [] {
      assert Orderly(c, p, p.workers[w]);
    }
    assert p.workers[0].phase.Returned?;
    forall job ensures job in p.finished <==> job in p.accepted {
      assert PlacedOnce(p, job);
      TimesIn(p.accepted, job);
      NoneLeft(p.workers, job);
    }
  }

  /** Steps the pool takes by itself, once handlers return. */
  predicate Internal(step: Step) {
    !step.Submit? && !step.Handoff? && !step.Close?
  }

  function Owed(worker: Worker): nat {
    (match worker.phase case Ranging => 2 case Holding(_) => 5 case Draining => 1 case Returned => 0)
    + 2 * |worker.running| + |worker.ending|
  }

  ghost function OwedBy(workers: seq<Worker>): nat {
    if workers == [] then 0 else Owed(workers[0]) + OwedBy(workers[1..])
  }

  /** How much the pool still has to do. */
  ghost function Work(p: Pool): nat {
    4 * |p.queue| + OwedBy(p.workers)
  }

  lemma {:induction false} OwedUpdate(workers: seq<Worker>, w: nat, worker: Worker)
    requires w < |workers|
    ensures OwedBy(workers[w := worker]) == OwedBy(workers) - Owed(workers[w]) + Owed(worker)
  {
    hide Owed;
    var now := workers[w := worker];
    if w == 0 {
      assert now[1..] == workers[1..];
    } else {
      OwedUpdate(workers[1..], w - 1, worker);
      assert now[1..] == workers[1..][w - 1 := worker];
    }
  }

  lemma WorkShrinks(c: Config, p: Pool, step: Step)
    requires Inv(c, p) && Enabled(c, p, step) && Internal(step)
    ensures Work(Next(c, p, step)) < Work(p)
  {
    var q := Next(c, p, step);
    OwedUpdate(p.workers, step.w, q.workers[step.w]);
    assert q.workers == p.workers[step.w := q.workers[step.w]];
    hide Inv, OwedBy;
    assert step.Acquire? ==> |p.workers[step.w].running + {p.workers[step.w].phase.job}| <= |p.workers[step.w].running| + 1;
    assert step.Release? ==> |p.workers[step.w].ending + {step.job}| <= |p.workers[step.w].ending| + 1;
  }

  /** With a slot to give, a closed pool is stuck only when every worker has returned. */
  lemma ClosedPoolMovesOn(c: Config, p: Pool, w: nat)
    requires Inv(c, p) && c.connections > 0 && p.closed && w < |p.workers| && !p.workers[w].phase.Returned?
    ensures exists step :: Internal(step) && Enabled(c, p, step)
  {
    var worker := p.workers[w];
    assert Orderly(c, p, worker);
    if job :| job in worker.running {
      assert Enabled(c, p, Release(w, job));
    } else if job :| job in worker.ending {
      assert Enabled(c, p, Done(w, job));
    } else {
      assert worker.running == {} && worker.ending == {};
      var step := match worker.phase
        case Holding(_) => Acquire(w)
        case Draining => Return(w)
        case _ => if p.queue == [] then Leave(w) else Take(w);
      assert Enabled(c, p, step);
    }
  }

  /** After closing, however the steps interleave, at most `Work` of them remain. */
  lemma {:induction false} ClosedPoolEnds(c: Config, p: Pool, steps: seq<Step>)
    requires Inv(c, p) && Run(c, p, steps) && forall i :: 0 <= i < |steps| ==> Internal(steps[i])
    ensures |steps| + Work(After(c, p, steps)) <= Work(p)
    decreases |steps|
  {
    hide Inv, Enabled, Next, Work;
    if steps != [] {
      WorkShrinks(c, p, steps[0]);
      StepKeeps(c, p, steps[0]);
      ClosedPoolEnds(c, Next(c, p, steps[0]), steps[1..]);
    }
  }

  lemma {:induction false} NoSlotsNoService(c: Config, p: Pool, steps: seq<Step>)
    requires Inv(c, p) && Run(c, p, steps) && c.connections == 0 && p.finished == {} && NoneEnding(p)
    ensures After(c, p, steps).finished == {}
    decreases |steps|
  {
    if steps != [] {
      StepKeeps(c, p, steps[0]);
      var q := Next(c, p, steps[0]);
      forall w | 0 <= w < |q.workers| ensures q.workers[w].ending == {} {
        assert Orderly(c, p, p.workers[w]);
      }
      hide Inv, Enabled, Next;
      NoSlotsNoService(c, q, steps[1..]);
    }
  }

  ghost predicate NoneEnding(p: Pool) {
    forall w :: 0 <= w < |p.workers| ==> p.workers[w].ending == {}
  }

  // ----- the mutable pool -----

  /** The pool's shared state. A method runs when its channel operation can go ahead. */
  class WorkerPool {
    const connections: nat
    const size: nat
    const queueSize: nat
    var jobs: seq<Job>
    var closed: bool
    var workers: seq<Worker>
    ghost var accepted: seq<Job>
    ghost var started: seq<Job>
    ghost var finished: set<Job>

    ghost function Shape(): Config {
      Config(size, connections, queueSize)
    }

    ghost function State(): Pool
      reads this
    {
      Pool(jobs, closed, workers, accepted, started, finished)
    }

    ghost predicate Valid()
      reads this
    {
      Inv(Shape(), State())
    }

    constructor (workerCount: nat, connectionsPerWorker: nat, queueSize: nat)
      ensures Shape() == Config(workerCount, connectionsPerWorker, queueSize)
      ensures Valid() && State() == NewPool(Shape())
    {
      connections, size, this.queueSize := connectionsPerWorker, workerCount, queueSize;
      jobs, closed, accepted, started, finished := [], false, [], [], {};
      var made: seq<Worker> := [];
      for id := 0 to workerCount
        invariant |made| == id && forall w :: 0 <= w < id ==> made[w] == Worker(Ranging, {}, {}, {})
      {
        made := made + [Worker(Ranging, {}, {}, {})];
      }
      workers := made;
      new;
      NewPoolInv(Shape());
      assert workers == NewPool(Shape()).workers;
    }

    /** Put a job into the queue's buffer. */
    method Submit(job: Job)
      requires Valid() && Enabled(Shape(), State(), Step.Submit(job))
      modifies this
      ensures Valid() && State() == Next(Shape(), old(State()), Step.Submit(job))
    {
      StepKeeps(Shape(), State(), Step.Submit(job));
      hide Inv;
      jobs, accepted := jobs + [job], accepted + [job];
    }

    /** Pass a job to a worker that waits at an empty queue. */
    method Pass(job: Job, w: nat)
      requires Valid() && Enabled(Shape(), State(), Handoff(job, w))
      modifies this
      ensures Valid() && State() == Next(Shape(), old(State()), Handoff(job, w))
    {
      StepKeeps(Shape(), State(), Handoff(job, w));
      hide Inv;
      workers := workers[w := Holds(workers[w], job)];
      accepted, started := accepted + [job], started + [job];
    }

    /** One turn of a worker's loop over the queue: take the oldest job, or leave once it is closed. */
    method Receive(w: nat) returns (more: bool)
      requires Valid() && w < |workers| && workers[w].phase.Ranging? && (jobs != [] || closed)
      modifies this
      ensures Valid() && more == (old(jobs) != [])
      ensures State() == Next(Shape(), old(State()), if more then Take(w) else Leave(w))
    {
      more := |jobs| > 0;
      StepKeeps(Shape(), State(), if more then Take(w) else Leave(w));
      hide Inv;
      if more {
        started, workers, jobs := started + [jobs[0]], workers[w := Holds(workers[w], jobs[0])], jobs[1..];
      } else {
        workers := workers[w := workers[w].(phase := Draining)];
      }
    }

    /** Take a slot and start the handler of the job in hand. */
    method AcquireSlot(w: nat)
      requires Valid() && Enabled(Shape(), State(), Acquire(w))
      modifies this
      ensures Valid() && State() == Next(Shape(), old(State()), Acquire(w))
    {
      StepKeeps(Shape(), State(), Acquire(w));
      hide Inv;
      workers := workers[w := workers[w].(phase := Ranging, running := workers[w].running + {workers[w].phase.job})];
    }

    /** A handler returned: its slot goes back first. */
    method ReleaseSlot(w: nat, job: Job)
      requires Valid() && Enabled(Shape(), State(), Release(w, job))
      modifies this
      ensures Valid() && State() == Next(Shape(), old(State()), Release(w, job))
    {
      StepKeeps(Shape(), State(), Release(w, job));
      hide Inv;
      workers := workers[w := workers[w].(running := workers[w].running - {job}, ending := workers[w].ending + {job})];
    }

    /** Then the wait group is told. */
    method TellDone(w: nat, job: Job)
      requires Valid() && Enabled(Shape(), State(), Step.Done(w, job))
      modifies this
      ensures Valid() && State() == Next(Shape(), old(State()), Step.Done(w, job))
    {
      StepKeeps(Shape(), State(), Step.Done(w, job));
      hide Inv;
      workers, finished := workers[w := workers[w].(ending := workers[w].ending - {job})], finished + {job};
    }

    method CloseQueue()
      requires Valid() && !closed
      modifies this
      ensures Valid() && State() == Next(Shape(), old(State()), Close)
    {
      StepKeeps(Shape(), State(), Close);
      hide Inv;
      closed := true;
    }

    /** The wait group is at zero: the worker's loop returns, having seen all its jobs through. */
    method WaitOver(w: nat)
      requires Valid() && Enabled(Shape(), State(), Return(w))
      modifies this
      ensures Valid() && State() == Next(Shape(), old(State()), Return(w))
      ensures closed && jobs == [] && forall job :: job in workers[w].taken ==> job in finished
    {
      StepKeeps(Shape(), State(), Return(w));
      hide Inv;
      workers := workers[w := workers[w].(phase := Returned)];
      ReturnedMeansDone(Shape(), State(), w);
    }
  }
}
