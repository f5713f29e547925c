/** When the job pool spawns a worker and when it queues a job instead. */
module JobPoolSpawning {
  import opened Options
  import opened JobPool
  import opened JobPoolSafety
  import opened JobPoolShutdown

  /** The job is in the waiting queue, or its thread has turned to that queue. */
  predicate Queueing(s: State, j: Job) {
    j in s.waiting || (j in s.submitting && s.submitting[j] in {TryingQueue, BlockedOnQueue})
  }

  /** Only in a pool with all its workers does a step turn a job to the queue. */
  lemma TurnsToQueue(s: State, t: Step, j: Job)
    requires Counted(s) && Enabled(s, t) && !Queueing(s, j) && Queueing(Apply(s, t), j)
    ensures |s.workers| == s.cfg.maxJobs
  {
    if t.Work? {
      WorkersTurnNobody(s, t.w, t.a, j);
    }
  }

  lemma WorkersTurnNobody(s: State, i: nat, a: Action, j: Job)
    requires Enabled(s, Work(i, a)) && !Queueing(s, j)
    ensures !Queueing(Apply(s, Work(i, a)), j)
  {
  }

  /** Over every run, departures included: whenever a job comes to wait for the queue or
      in it, the pool had all its workers. */
  lemma QueuedOnlyWhenFull(cfg: Config, run: seq<Step>, t: Step, j: Job)
    requires CanRun(Init(cfg), run) && Enabled(After(Init(cfg), run), t)
    requires !Queueing(After(Init(cfg), run), j) && Queueing(Apply(After(Init(cfg), run), t), j)
    ensures |After(Init(cfg), run).workers| == cfg.maxJobs
  {
    ReachableInv(cfg, run);
    ConfigFixed(Init(cfg), run);
    TurnsToQueue(After(Init(cfg), run), t, j);
  }

  ghost predicate FullIfQueueing(s: State) {
    (exists j :: Queueing(s, j)) ==> |s.workers| == s.cfg.maxJobs
  }

  lemma StepKeepsFull(s: State, t: Step)
    requires Counted(s) && FullIfQueueing(s) && Enabled(s, t) && !t.Depart? && Counted(Apply(s, t))
    ensures FullIfQueueing(Apply(s, t))
  {
    if j :| Queueing(Apply(s, t), j) {
      if !Queueing(s, j) {
        TurnsToQueue(s, t, j);
      }
      NobodyLeaves(s, t);
    }
  }

  lemma NobodyLeaves(s: State, t: Step)
    requires Enabled(s, t) && !t.Depart?
    ensures |s.workers| <= |Apply(s, t).workers| && Apply(s, t).cfg == s.cfg
  {
  }

  lemma {:induction false} RunKeepsFull(s: State, run: seq<Step>)
    requires Inv(s) && FullIfQueueing(s) && CanRun(s, run) && forall t <- run :: !t.Depart?
    ensures FullIfQueueing(After(s, run))
    decreases |run|
  {
    if run != [] {
      assert run[0] in run;
      StepKeepsInv(s, run[0]);
      StepKeepsFull(s, run[0]);
      RunKeepsFull(Apply(s, run[0]), run[1..]);
    }
  }

  /** As long as no worker has departed, a job waits only in a pool with all its workers. */
  lemma WaitsOnlyWhenFull(cfg: Config, run: seq<Step>, j: Job)
    requires CanRun(Init(cfg), run) && (forall t <- run :: !t.Depart?) && Queueing(After(Init(cfg), run), j)
    ensures |After(Init(cfg), run).workers| == cfg.maxJobs
  {
    RunKeepsFull(Init(cfg), run);
    ConfigFixed(Init(cfg), run);
  }

  // ---- The queue's capacity -----------------------------------------------

  lemma {:induction false} RunKeepsCapacity(s: State, run: seq<Step>)
    requires CanRun(s, run) && s.cfg.queueSize.Some? && |s.waiting| <= s.cfg.queueSize.value
    ensures |After(s, run).waiting| <= s.cfg.queueSize.value
    decreases |run|
  {
    if run != [] {
      RunKeepsCapacity(Apply(s, run[0]), run[1..]);
    }
  }

  /** A bounded queue never holds more jobs than its size, and one of size zero never any. */
  lemma QueueBounded(cfg: Config, run: seq<Step>)
    requires CanRun(Init(cfg), run) && cfg.queueSize.Some?
    ensures |After(Init(cfg), run).waiting| <= cfg.queueSize.value
  {
    RunKeepsCapacity(Init(cfg), run);
  }

  // ---- A submission ends --------------------------------------------------

  /** `spawn_job` decides: in every reachable state a job nobody received is handed to a
      new worker exactly if the pool lacks one, and turned to the queue otherwise. */
  lemma SpawnDecides(cfg: Config, run: seq<Step>, j: Job)
    requires CanRun(Init(cfg), run) && Enabled(After(Init(cfg), run), Client(SpawnFor(j)))
    ensures var s := After(Init(cfg), run);
            var s' := Apply(s, Client(SpawnFor(j)));
            && (HeldByAll(s'.workers, j) == 1 <==> |s.workers| < cfg.maxJobs)
            && (Queueing(s', j) <==> |s.workers| == cfg.maxJobs)
            && |s'.workers| == |s.workers| + One(|s.workers| < cfg.maxJobs)
  {
    var s := After(Init(cfg), run);
    ReachableInv(cfg, run);
    ConfigFixed(Init(cfg), run);
    StepKeepsInv(s, Client(SpawnFor(j)));
    assert Places(s, j) == One(j in s.accepted);
    HeldAppend(s.workers, NewWorker(Some(j)), j);
  }

  /** A job just submitted can be received by any worker that polls with room, and is then
      run by it without ever being queued. */
  lemma HandedOver(cfg: Config, run: seq<Step>, j: Job, i: nat)
    requires CanRun(Init(cfg), run) && Enabled(After(Init(cfg), run), Client(Submit(j)))
    requires var s := After(Init(cfg), run); i < |s.workers| && Takes(s, s.workers[i])
    ensures var s := Apply(After(Init(cfg), run), Client(Submit(j)));
            && Enabled(s, Work(i, Receive(j)))
            && var s' := Apply(s, Work(i, Receive(j))); s'.workers[i].phase == Running(j) && j !in s'.submitting
  {
  }

  /** The steps of the thread that submits the job. */
  predicate Own(t: Step, j: Job) {
    t in {Client(NoReceiver(j)), Client(SpawnFor(j)), Client(TryQueue(j)), Client(SendQueue(j))}
  }

  function Progress(stage: Stage): nat {
    match stage
    case TryingImmediate => 0
    case Spawning => 1
    case TryingQueue => 2
    case BlockedOnQueue => 3
  }

  /** Every step of the submitting thread either takes the job out of its hands or leads to
      a later stage, and no step of anybody leads a job back to an earlier one. */
  lemma StagesAdvance(s: State, t: Step, j: Job)
    requires Enabled(s, t) && j in s.submitting && j in Apply(s, t).submitting && j in s.accepted
    ensures Progress(s.submitting[j]) <= Progress(Apply(s, t).submitting[j])
    ensures Own(t, j) ==> Progress(s.submitting[j]) < Progress(Apply(s, t).submitting[j])
  {
    match t
    case Work(i, a) => WorkersKeepStage(s, i, a, j);
    case Client(r) => RequestsAdvance(s, r, j);
    case _ =>
  }

  lemma WorkersKeepStage(s: State, i: nat, a: Action, j: Job)
    requires Enabled(s, Work(i, a)) && j in s.submitting && j in Apply(s, Work(i, a)).submitting
    ensures Apply(s, Work(i, a)).submitting[j] == s.submitting[j]
  {
  }

  lemma RequestsAdvance(s: State, r: Request, j: Job)
    requires RequestEnabled(s, r) && j in s.submitting && j in Requested(s, r).submitting && j in s.accepted
    ensures Progress(s.submitting[j]) <= Progress(Requested(s, r).submitting[j])
    ensures Own(Client(r), j) ==> Progress(s.submitting[j]) < Progress(Requested(s, r).submitting[j])
  {
  }

  ghost predicate Ends(s: State, j: Job, run: seq<Step>) {
    (forall t <- run :: Own(t, j)) && CanRun(s, run) && j !in After(s, run).submitting
  }

  lemma OneMoreStep(s: State, j: Job, t: Step, rest: seq<Step>)
    requires Enabled(s, t) && Own(t, j) && Ends(Apply(s, t), j, rest)
    ensures Ends(s, j, [t] + rest)
  {
    Before(s, t, rest);
  }

  lemma EndsAtQueue(s: State, j: Job) returns (run: seq<Step>)
    requires j in s.submitting && Queueing(s, j) && j !in s.waiting && Room(s)
    ensures |run| <= 1 && Ends(s, j, run)
  {
    var t := Client(if s.submitting[j] == TryingQueue then TryQueue(j) else SendQueue(j));
    OneMoreStep(s, j, t, []);
    run := [t] + [];
  }

  lemma EndsAtSpawning(s: State, j: Job) returns (run: seq<Step>)
    requires Inv(s) && InStage(s, j, Spawning) && (Room(s) || |s.workers| < s.cfg.maxJobs)
    ensures |run| <= 2 && Ends(s, j, run)
  {
    var t := Client(SpawnFor(j));
    var rest: seq<Step> := [];
    if |s.workers| >= s.cfg.maxJobs {
      InOnePlace(s, j);
      rest := EndsAtQueue(Apply(s, t), j);
    }
    OneMoreStep(s, j, t, rest);
    run := [t] + rest;
  }

  lemma InOnePlace(s: State, j: Job)
    requires Inv(s) && j in s.submitting
    ensures j !in s.waiting
  {
    assert Places(s, j) == One(j in s.accepted);
    assert multiset(s.waiting)[j] == 0;
  }

  /** Every submission can end, with the job out of its thread's hands, by at most three
      steps of that thread alone, unless the queue is full and either the pool has all its
      workers or the thread has already turned to the queue. */
  lemma SubmissionEnds(s: State, j: Job) returns (run: seq<Step>)
    requires Inv(s) && j in s.submitting && (Room(s) || (|s.workers| < s.cfg.maxJobs && !Queueing(s, j)))
    ensures |run| <= 3 && Ends(s, j, run)
  {
    InOnePlace(s, j);
    if s.submitting[j] == TryingImmediate {
      var t := Client(NoReceiver(j));
      StepKeepsInv(s, t);
      var rest := EndsAtSpawning(Apply(s, t), j);
      OneMoreStep(s, j, t, rest);
      run := [t] + rest;
    } else if s.submitting[j] == Spawning {
      run := EndsAtSpawning(s, j);
    } else {
      run := EndsAtQueue(s, j);
    }
  }
}
