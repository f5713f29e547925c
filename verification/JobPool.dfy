/** The job pool of `crates/consensus/job_pool` as a step system.
    Submitting threads, worker threads, the waiting queue, the rendezvous queue
    and the thread that shuts the pool down share one state.  A step is one
    atomic action of one thread: a section under the `jobs_count` mutex, a
    channel operation, or the end of a job's run.  Every interleaving is a
    sequence of steps. */
module JobPool {
  import opened Options

  /** `addr` is the address of the job's boxed poller; the allocator may hand it
      out again once the job has been dropped. */
  datatype Job = Job(id: nat, addr: nat, isAsync: bool)

  datatype Config = Config(minJobs: nat, maxJobs: nat, limit: nat, queueSize: Option<nat>)

  datatype Phase =
    | Unstarted            // built by `spawn_job`, the thread does not run yet
    | Running(job: Job)    // inside `execute_job`
    | Polling              // at the top of the loop or blocked in `select`
    | Resuming(addr: nat)  // inside `finish_pending_job`
    | Idle                 // `select` timed out with nothing pending, `on_idle` not called yet
    | Leaving              // the loop is over, the listener is not dropped yet

  datatype Worker = Worker(
    phase: Phase, initial: Option<Job>, active: bool, pending: map<nat, Job>, inbox: seq<nat>)

  /** Where a thread inside `execute_job` of the pool stands with its job. */
  datatype Stage = TryingImmediate | Spawning | TryingQueue | BlockedOnQueue

  datatype State = State(
    cfg: Config,
    jobsCount: nat,
    workers: seq<Worker>,
    waiting: seq<Job>,
    submitting: map<Job, Stage>,
    senderDropped: bool,       // `join_deadline` dropped the waiting queue's sender
    immediateClosed: bool,     // `join_deadline` returned, the pool itself is dropped
    joinResult: Option<bool>,
    accepted: set<Job>,        // every job ever handed to the pool
    started: set<Job>,         // sync jobs whose closure has been taken
    completed: multiset<Job>,  // one entry per call of `complete`
    lost: multiset<Job>)       // initial jobs of workers whose thread could not be spawned

  /** Steps of a thread that hands a job to the pool, or adds a worker. */
  datatype Request =
    | Submit(job: Job)
    | NoReceiver(job: Job)
    | SpawnFor(job: Job)
    | TryQueue(job: Job)
    | SendQueue(job: Job)
    | SpawnIdle

  /** Steps of one worker thread, or of a waker that notifies it. */
  datatype Action =
    | Start
    | SpawnFail
    | Receive(job: Job)
    | Take
    | Close
    | FinishRun(done: bool)
    | Notice
    | FinishResume(done: bool)
    | TimeOut
    | CheckIdle
    | Exit
    | Wake(addr: nat)

  datatype Step =
    | Client(r: Request)
    | Work(w: nat, a: Action)
    | Depart(w: nat)
    | DropSender
    | JoinReturns(full: bool)

  function Init(cfg: Config): State {
    State(cfg, 0, [], [], map[], false, false, None, {}, {}, multiset{}, multiset{})
  }

  // ---- Submitting threads -------------------------------------------------

  predicate Room(s: State) {
    s.cfg.queueSize.None? || |s.waiting| < s.cfg.queueSize.value
  }

  /** Jobs that are not dropped yet, so their addresses are taken. */
  predicate Live(s: State, j: Job) {
    j in s.accepted && j !in s.completed && j !in s.lost
  }

  predicate InStage(s: State, j: Job, stage: Stage) {
    j in s.submitting && s.submitting[j] == stage
  }

  predicate RequestEnabled(s: State, r: Request) {
    match r
    case Submit(j) =>
      && !s.senderDropped
      && (forall k <- s.accepted :: k.id != j.id)
      && (forall k <- s.accepted :: Live(s, k) ==> k.addr != j.addr)
    case NoReceiver(j) => InStage(s, j, TryingImmediate)
    case SpawnFor(j) => InStage(s, j, Spawning)
    case TryQueue(j) => InStage(s, j, TryingQueue)
    case SendQueue(j) => InStage(s, j, BlockedOnQueue) && Room(s)
    case SpawnIdle => !s.senderDropped
  }

  function NewWorker(initial: Option<Job>): Worker {
    Worker(Unstarted, initial, false, map[], [])
  }

  function Spawned(s: State, initial: Option<Job>): State {
    s.(jobsCount := s.jobsCount + 1, workers := s.workers + [NewWorker(initial)])
  }

  function Requested(s: State, r: Request): State
    requires RequestEnabled(s, r)
  {
    match r
    case Submit(j) => s.(accepted := s.accepted + {j}, submitting := s.submitting[j := TryingImmediate])
    case NoReceiver(j) => s.(submitting := s.submitting[j := Spawning])
    case SpawnFor(j) =>
      if s.jobsCount >= s.cfg.maxJobs then s.(submitting := s.submitting[j := TryingQueue])
      else Spawned(s, Some(j)).(submitting := s.submitting - {j})
    case TryQueue(j) =>
      if Room(s) then s.(waiting := s.waiting + [j], submitting := s.submitting - {j})
      else s.(submitting := s.submitting[j := BlockedOnQueue])
    case SendQueue(j) => s.(waiting := s.waiting + [j], submitting := s.submitting - {j})
    case SpawnIdle => if s.jobsCount >= s.cfg.maxJobs then s else Spawned(s, None)
  }

  // ---- Worker threads -----------------------------------------------------

  /** The worker registers both job queues with its `select`. */
  predicate Takes(s: State, w: Worker) {
    w.phase.Polling? && w.active && |w.pending| < s.cfg.limit
  }

  /** Some registered operation of the worker's `select` is ready. */
  predicate Ready(s: State, w: Worker) {
    || (Takes(s, w) && (s.waiting != [] || s.senderDropped || s.immediateClosed))
    || (w.pending != map[] && w.inbox != [])
  }

  /** The outcome of `run`: an async job decides itself, a sync job completes
      unless its closure is gone already (`NoJobToPoll`). */
  predicate Completes(s: State, j: Job, done: bool) {
    if j.isAsync then done else j !in s.started
  }

  predicate ActionEnabled(s: State, w: Worker, a: Action) {
    match a
    case Start => w.phase.Unstarted?
    case SpawnFail => w.phase.Unstarted? && !s.senderDropped  // inside `spawn_job`, which borrows the pool
    case Receive(j) =>
      && Takes(s, w)
      && (|| InStage(s, j, TryingImmediate)
          || (s.cfg.queueSize == Some(0) && (InStage(s, j, TryingQueue) || InStage(s, j, BlockedOnQueue))))
    case Take => Takes(s, w) && s.waiting != []
    case Close => Takes(s, w) && ((s.senderDropped && s.waiting == []) || s.immediateClosed)
    case FinishRun(_) => w.phase.Running?
    case Notice => w.phase.Polling? && w.pending != map[] && w.inbox != []
    case FinishResume(_) => w.phase.Resuming?
    case TimeOut => w.phase.Polling? && (w.active || w.pending != map[]) && !Ready(s, w)
    case CheckIdle => w.phase.Idle?
    case Exit => w.phase.Polling? && !w.active && w.pending == map[]
    case Wake(_) => true
  }

  /** The job a woken worker finds under the address and runs to its end. */
  predicate Resumes(w: Worker, done: bool) {
    w.phase.Resuming? && done && w.phase.addr in w.pending
  }

  /** What an action leaves of the worker itself. */
  function ActedWorker(s: State, w: Worker, a: Action): Worker
    requires ActionEnabled(s, w, a)
  {
    match a
    case Start =>
      w.(active := true, initial := None,
         phase := if w.initial.Some? then Running(w.initial.value) else Polling)
    case SpawnFail => w.(phase := Leaving, initial := None)
    case Receive(j) => w.(phase := Running(j))
    case Take => w.(phase := Running(s.waiting[0]))
    case Close => w.(active := false)
    case FinishRun(done) =>
      var j := w.phase.job;
      if Completes(s, j, done) then w.(phase := Polling)
      else w.(phase := Polling, pending := w.pending[j.addr := j])
    case Notice => w.(phase := Resuming(w.inbox[0]), inbox := w.inbox[1..])
    case FinishResume(done) =>
      if Resumes(w, done) then w.(phase := Polling, pending := w.pending - {w.phase.addr})
      else w.(phase := Polling)
    case TimeOut => if w.pending == map[] then w.(phase := Idle) else w
    case CheckIdle => w.(phase := Polling, active := s.jobsCount <= s.cfg.minJobs)
    case Exit => w.(phase := Leaving)
    case Wake(addr) => w.(inbox := w.inbox + [addr])
  }

  /** What an action does outside the worker. */
  function ActedOutside(s: State, w: Worker, a: Action): State
    requires ActionEnabled(s, w, a)
  {
    match a
    case SpawnFail => if w.initial.Some? then s.(lost := s.lost + multiset{w.initial.value}) else s
    case Receive(j) => s.(submitting := s.submitting - {j})
    case Take => s.(waiting := s.waiting[1..])
    case FinishRun(done) =>
      var j := w.phase.job;
      if !Completes(s, j, done) then s
      else s.(completed := s.completed + multiset{j}, started := if j.isAsync then s.started else s.started + {j})
    case FinishResume(done) =>
      if Resumes(w, done) then s.(completed := s.completed + multiset{w.pending[w.phase.addr]}) else s
    case _ => s
  }

  // ---- All steps ----------------------------------------------------------

  function Without(ws: seq<Worker>, i: nat): seq<Worker>
    requires i < |ws|
  {
    ws[..i] + ws[i + 1..]
  }

  /** `saturating_sub(1)` on the worker count. */
  function SaturatingDecrement(n: nat): nat {
    if n == 0 then 0 else n - 1
  }

  predicate Enabled(s: State, t: Step) {
    match t
    case Client(r) => RequestEnabled(s, r)
    case Work(w, a) => w < |s.workers| && ActionEnabled(s, s.workers[w], a)
    case Depart(w) => w < |s.workers| && s.workers[w].phase.Leaving?
    case DropSender => !s.senderDropped && s.submitting == map[]
    case JoinReturns(full) => s.senderDropped && !s.immediateClosed && (full ==> s.jobsCount == 0)
  }

  function Apply(s: State, t: Step): State
    requires Enabled(s, t)
  {
    match t
    case Client(r) => Requested(s, r)
    case Work(w, a) =>
      ActedOutside(s, s.workers[w], a).(workers := s.workers[w := ActedWorker(s, s.workers[w], a)])
    case Depart(w) => s.(jobsCount := SaturatingDecrement(s.jobsCount), workers := Without(s.workers, w))
    case DropSender => s.(senderDropped := true)
    case JoinReturns(full) => s.(immediateClosed := true, joinResult := Some(full))
  }

  // ---- Runs ---------------------------------------------------------------

  predicate CanRun(s: State, run: seq<Step>)
    decreases |run|
  {
    run == [] || (Enabled(s, run[0]) && CanRun(Apply(s, run[0]), run[1..]))
  }

  function After(s: State, run: seq<Step>): State
    requires CanRun(s, run)
    decreases |run|
  {
    if run == [] then s else After(Apply(s, run[0]), run[1..])
  }

  // ---- Where the jobs are -------------------------------------------------

  function One(b: bool): nat {
    if b then 1 else 0
  }

  /** How often a worker holds job `j`.  A pending job sits under its own address,
      which `WorkerOk` says of every entry of the map. */
  function Held(w: Worker, j: Job): nat {
    One(w.initial == Some(j)) + One(w.phase == Running(j))
    + One(j.addr in w.pending && w.pending[j.addr] == j)
  }

  function HeldByAll(ws: seq<Worker>, j: Job): nat {
    if ws == [] then 0 else Held(ws[0], j) + HeldByAll(ws[1..], j)
  }

  /** How many places outside the workers hold job `j`: a submitting thread, the
      waiting queue, the completed jobs, the jobs lost with an unspawned worker. */
  function Outside(s: State, j: Job): nat {
    One(j in s.submitting) + multiset(s.waiting)[j] + s.completed[j] + s.lost[j]
  }

  function Places(s: State, j: Job): nat {
    Outside(s, j) + HeldByAll(s.workers, j)
  }

  // ---- The invariant ------------------------------------------------------

  function PendingBound(cfg: Config): nat {
    if cfg.limit == 0 then 1 else cfg.limit
  }

  predicate WorkerOk(cfg: Config, w: Worker) {
    && (forall a <- w.pending :: w.pending[a].addr == a && w.pending[a].isAsync)
    && |w.pending| <= PendingBound(cfg)
    && (!w.phase.Unstarted? ==> w.initial.None?)
    && (w.phase.Unstarted? || w.phase.Leaving? ==> !w.active && w.pending == map[])
    && (w.phase.Idle? ==> w.active && w.pending == map[])
    && (w.phase.Running? ==> w.active && |w.pending| < PendingBound(cfg))
  }

  predicate WorkersOk(s: State) {
    forall i :: 0 <= i < |s.workers| ==> WorkerOk(s.cfg, s.workers[i])
  }

  predicate Counted(s: State) {
    s.jobsCount == |s.workers| <= s.cfg.maxJobs
  }

  /** Every job the pool accepted is in exactly one place, and no other job is anywhere. */
  ghost predicate Conserved(s: State) {
    forall j :: Places(s, j) == One(j in s.accepted)
  }

  ghost predicate AddrsDistinct(s: State) {
    forall j, k :: Live(s, j) && Live(s, k) && j.addr == k.addr ==> j == k
  }

  predicate FlagsOk(s: State) {
    && (s.senderDropped ==> s.submitting == map[])
    && (s.immediateClosed ==> s.senderDropped)
  }

  /** A sync job's closure is taken only in the run that completes it. */
  predicate StartedDone(s: State) {
    forall j <- s.started :: j in s.completed
  }

  ghost predicate Inv(s: State) {
    WorkersOk(s) && Counted(s) && Conserved(s) && AddrsDistinct(s) && FlagsOk(s) && StartedDone(s)
  }
}
