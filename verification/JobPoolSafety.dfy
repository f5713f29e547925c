/** What every reachable state of the job pool keeps: no job is lost, duplicated
    or completed twice, and the worker count is the number of live workers. */
module JobPoolSafety {
  import opened Options
  import opened JobPool

  // ---- Counting places ----------------------------------------------------

  lemma {:induction false} HeldSplit(ws: seq<Worker>, i: nat, j: Job)
    requires i < |ws|
    ensures HeldByAll(ws, j) == Held(ws[i], j) + HeldByAll(Without(ws, i), j)
  {
    if i == 0 {
      assert Without(ws, 0) == ws[1..];
    } else {
      HeldSplit(ws[1..], i - 1, j);
      assert Without(ws, i)[1..] == Without(ws[1..], i - 1);
    }
  }

  lemma HeldSet(ws: seq<Worker>, i: nat, w: Worker, j: Job)
    requires i < |ws|
    ensures HeldByAll(ws[i := w], j) + Held(ws[i], j) == HeldByAll(ws, j) + Held(w, j)
  {
    HeldSplit(ws, i, j);
    HeldSplit(ws[i := w], i, j);
    assert Without(ws[i := w], i) == Without(ws, i);
  }

  lemma HeldAppend(ws: seq<Worker>, w: Worker, j: Job)
    ensures HeldByAll(ws + [w], j) == HeldByAll(ws, j) + Held(w, j)
  {
    HeldSplit(ws + [w], |ws|, j);
    assert Without(ws + [w], |ws|) == ws;
  }

  /** A job held by a worker is live: it has one place and that place is the worker. */
  lemma HeldIsLive(s: State, i: nat, j: Job)
    requires Conserved(s) && i < |s.workers| && Held(s.workers[i], j) > 0
    ensures Live(s, j) && Held(s.workers[i], j) == 1
  {
    HeldSplit(s.workers, i, j);
    assert Places(s, j) == One(j in s.accepted);
  }

  // ---- One worker action --------------------------------------------------

  /** What the rest of the invariant gives a worker whose run ends: its job is
      nobody's second copy, so its address is free and its closure unused. */
  predicate RunsFreshJob(s: State, w: Worker) {
    w.phase.Running? ==> w.phase.job.addr !in w.pending && w.phase.job !in s.started
  }

  lemma RunsFreshJobs(s: State, i: nat)
    requires Inv(s) && i < |s.workers|
    ensures RunsFreshJob(s, s.workers[i])
  {
    var w := s.workers[i];
    if w.phase.Running? {
      var j := w.phase.job;
      HeldIsLive(s, i, j);
      if j.addr in w.pending {
        HeldIsLive(s, i, w.pending[j.addr]);
        assert false;
      }
    }
  }

  lemma RunEndExchanges(s: State, w: Worker, done: bool, k: Job)
    requires RunsFreshJob(s, w) && w.phase.Running?
    ensures Held(w, k) == One(k == w.phase.job) + Held(w.(phase := Polling), k)
    ensures Held(ActedWorker(s, w, FinishRun(done)), k) + One(k == w.phase.job && Completes(s, k, done)) == Held(w, k)
  {
  }

  lemma ResumeEndExchanges(s: State, w: Worker, done: bool, k: Job)
    requires WorkerOk(s.cfg, w) && w.phase.Resuming?
    ensures Held(ActedWorker(s, w, FinishResume(done)), k)
         + One(Resumes(w, done) && k == w.pending[w.phase.addr]) == Held(w, k)
  {
  }

  lemma QueueExchanges(s: State, w: Worker, a: Action, k: Job)
    requires a.Take? || a.Receive?
    requires ActionEnabled(s, w, a)
    ensures Outside(ActedOutside(s, w, a), k) + Held(ActedWorker(s, w, a), k) == Outside(s, k) + Held(w, k)
  {
    if a.Take? {
      assert s.waiting == [s.waiting[0]] + s.waiting[1..];
    }
  }

  lemma LocalExchanges(s: State, w: Worker, a: Action, k: Job)
    requires WorkerOk(s.cfg, w) && ActionEnabled(s, w, a)
    requires !a.Take? && !a.Receive? && !a.FinishRun? && !a.FinishResume?
    ensures Outside(ActedOutside(s, w, a), k) + Held(ActedWorker(s, w, a), k) == Outside(s, k) + Held(w, k)
  {
  }

  lemma FinishExchanges(s: State, w: Worker, a: Action, k: Job)
    requires WorkerOk(s.cfg, w) && RunsFreshJob(s, w) && ActionEnabled(s, w, a)
    requires a.FinishRun? || a.FinishResume?
    ensures Outside(ActedOutside(s, w, a), k) + Held(ActedWorker(s, w, a), k) == Outside(s, k) + Held(w, k)
  {
    if a.FinishRun? {
      RunEndExchanges(s, w, a.done, k);
    } else {
      ResumeEndExchanges(s, w, a.done, k);
    }
  }

  /** An action only moves jobs between its worker and the places outside. */
  lemma ActionExchanges(s: State, w: Worker, a: Action, k: Job)
    requires WorkerOk(s.cfg, w) && RunsFreshJob(s, w) && ActionEnabled(s, w, a)
    ensures Outside(ActedOutside(s, w, a), k) + Held(ActedWorker(s, w, a), k) == Outside(s, k) + Held(w, k)
  {
    if a.FinishRun? || a.FinishResume? {
      FinishExchanges(s, w, a, k);
    } else if a.Take? || a.Receive? {
      QueueExchanges(s, w, a, k);
    } else {
      LocalExchanges(s, w, a, k);
    }
  }

  lemma RunEndKeepsWorkerOk(s: State, w: Worker, done: bool)
    requires WorkerOk(s.cfg, w) && RunsFreshJob(s, w) && w.phase.Running?
    ensures WorkerOk(s.cfg, ActedWorker(s, w, FinishRun(done)))
  {
    var j := w.phase.job;
    var more := w.pending[j.addr := j];
    assert more.Keys == w.pending.Keys + {j.addr};
    assert |more| == |w.pending| + 1;
  }

  lemma ResumeEndKeepsWorkerOk(s: State, w: Worker, done: bool)
    requires WorkerOk(s.cfg, w) && w.phase.Resuming?
    ensures WorkerOk(s.cfg, ActedWorker(s, w, FinishResume(done)))
  {
    var fewer := w.pending - {w.phase.addr};
    assert fewer.Keys == w.pending.Keys - {w.phase.addr};
    assert |fewer.Keys| <= |w.pending.Keys|;
  }

  lemma ActionKeepsWorkerOk(s: State, w: Worker, a: Action)
    requires WorkerOk(s.cfg, w) && RunsFreshJob(s, w) && ActionEnabled(s, w, a)
    ensures WorkerOk(s.cfg, ActedWorker(s, w, a))
  {
    match a
    case FinishRun(done) => RunEndKeepsWorkerOk(s, w, done);
    case FinishResume(done) => ResumeEndKeepsWorkerOk(s, w, done);
    case _ =>
  }

  lemma WorkConserves(s: State, i: nat, a: Action)
    requires Conserved(s) && Enabled(s, Work(i, a))
    requires WorkerOk(s.cfg, s.workers[i]) && RunsFreshJob(s, s.workers[i])
    ensures Conserved(Apply(s, Work(i, a)))
  {
    var w, s' := s.workers[i], Apply(s, Work(i, a));
    forall k ensures Places(s', k) == One(k in s'.accepted) {
      assert Places(s, k) == One(k in s.accepted);
      ActionExchanges(s, w, a, k);
      HeldSet(s.workers, i, s'.workers[i], k);
    }
  }

  lemma WorkKeepsRest(s: State, i: nat, a: Action)
    requires AddrsDistinct(s) && FlagsOk(s) && StartedDone(s) && Enabled(s, Work(i, a))
    ensures AddrsDistinct(Apply(s, Work(i, a))) && FlagsOk(Apply(s, Work(i, a))) && StartedDone(Apply(s, Work(i, a)))
  {
  }

  lemma WorkKeepsWorkersOk(s: State, i: nat, a: Action)
    requires WorkersOk(s) && Counted(s) && Enabled(s, Work(i, a)) && RunsFreshJob(s, s.workers[i])
    ensures WorkersOk(Apply(s, Work(i, a))) && Counted(Apply(s, Work(i, a)))
  {
    ActionKeepsWorkerOk(s, s.workers[i], a);
  }

  lemma WorkKeepsInv(s: State, i: nat, a: Action)
    requires Inv(s) && Enabled(s, Work(i, a))
    ensures Inv(Apply(s, Work(i, a)))
  {
    RunsFreshJobs(s, i);
    WorkKeepsWorkersOk(s, i, a);
    WorkConserves(s, i, a);
    WorkKeepsRest(s, i, a);
  }

  // ---- The other steps ----------------------------------------------------

  lemma RequestConserves(s: State, r: Request)
    requires Conserved(s) && RequestEnabled(s, r)
    ensures Conserved(Requested(s, r))
  {
    var s' := Requested(s, r);
    forall k ensures Places(s', k) == One(k in s'.accepted) {
      assert Places(s, k) == One(k in s.accepted);
      match r
      case Submit(_) =>
      case SpawnFor(_) => SpawnMoves(s, r, k);
      case _ => RequestMoves(s, r, k);
    }
  }

  /** A request moves at most its own job, from the submitting thread to one other place. */
  lemma RequestMoves(s: State, r: Request, k: Job)
    requires RequestEnabled(s, r) && !r.Submit? && !r.SpawnFor?
    ensures Places(Requested(s, r), k) == Places(s, k)
  {
    if r.SpawnIdle? {
      HeldAppend(s.workers, NewWorker(None), k);
    }
  }

  lemma SpawnMoves(s: State, r: Request, k: Job)
    requires RequestEnabled(s, r) && r.SpawnFor?
    ensures Places(Requested(s, r), k) == Places(s, k)
  {
    HeldAppend(s.workers, NewWorker(Some(r.job)), k);
  }

  lemma RequestKeepsRest(s: State, r: Request)
    requires AddrsDistinct(s) && FlagsOk(s) && StartedDone(s) && RequestEnabled(s, r)
    ensures AddrsDistinct(Requested(s, r)) && FlagsOk(Requested(s, r)) && StartedDone(Requested(s, r))
  {
    forall j | Live(Requested(s, r), j) ensures Live(s, j) || r == Submit(j) { }
  }

  lemma RequestKeepsInv(s: State, r: Request)
    requires Inv(s) && RequestEnabled(s, r)
    ensures Inv(Requested(s, r))
  {
    RequestConserves(s, r);
    RequestKeepsRest(s, r);
  }

  lemma DepartKeepsInv(s: State, i: nat)
    requires Inv(s) && Enabled(s, Depart(i))
    ensures Inv(Apply(s, Depart(i)))
  {
    var s' := Apply(s, Depart(i));
    forall k ensures Places(s', k) == One(k in s'.accepted) {
      HeldSplit(s.workers, i, k);
      assert Places(s, k) == One(k in s.accepted);
    }
  }

  lemma StepKeepsInv(s: State, t: Step)
    requires Inv(s) && Enabled(s, t)
    ensures Inv(Apply(s, t))
  {
    match t
    case Client(r) => RequestKeepsInv(s, r);
    case Work(i, a) => WorkKeepsInv(s, i, a);
    case Depart(i) => DepartKeepsInv(s, i);
    case _ =>
      forall k ensures Places(Apply(s, t), k) == One(k in s.accepted) {
        assert Places(s, k) == One(k in s.accepted);
      }
  }

  lemma {:induction false} RunKeepsInv(s: State, run: seq<Step>)
    requires Inv(s) && CanRun(s, run)
    ensures Inv(After(s, run))
    decreases |run|
  {
    if run != [] {
      StepKeepsInv(s, run[0]);
      RunKeepsInv(Apply(s, run[0]), run[1..]);
    }
  }

  // ---- Theorems over all runs --------------------------------------------

  lemma ReachableInv(cfg: Config, run: seq<Step>)
    requires CanRun(Init(cfg), run)
    ensures Inv(After(Init(cfg), run))
  {
    RunKeepsInv(Init(cfg), run);
  }

  lemma OneHolder(ws: seq<Worker>, i: nat, k: nat, j: Job)
    requires i < k < |ws|
    ensures Held(ws[i], j) + Held(ws[k], j) <= HeldByAll(ws, j)
  {
    HeldSplit(ws, k, j);
    HeldSplit(Without(ws, k), i, j);
  }

  /** Job conservation: in every reachable state each accepted job is in exactly
      one place, no other job is anywhere, and no two workers hold the same job. */
  lemma JobConservation(cfg: Config, run: seq<Step>, j: Job)
    requires CanRun(Init(cfg), run)
    ensures var s := After(Init(cfg), run);
            && Outside(s, j) + HeldByAll(s.workers, j) == (if j in s.accepted then 1 else 0)
            && s.completed[j] + s.lost[j] <= 1
            && (forall i, k | 0 <= i < |s.workers| && 0 <= k < |s.workers| ::
                  Held(s.workers[i], j) > 0 && Held(s.workers[k], j) > 0 ==> i == k)
  {
    var s := After(Init(cfg), run);
    ReachableInv(cfg, run);
    assert Places(s, j) == One(j in s.accepted);
    forall i: nat, k: nat | i < k < |s.workers|
      ensures Held(s.workers[i], j) == 0 || Held(s.workers[k], j) == 0
    {
      OneHolder(s.workers, i, k, j);
    }
  }

  /** Worker bounds: the count is the number of live workers and never exceeds the
      maximum, the saturating decrement never saturates, a pending map holds only
      async jobs under their own addresses and at most `max(limit, 1)` of them. */
  lemma WorkerBounds(cfg: Config, run: seq<Step>)
    requires CanRun(Init(cfg), run)
    ensures var s := After(Init(cfg), run);
            && s.jobsCount == |s.workers| <= cfg.maxJobs
            && (forall i: nat :: Enabled(s, Depart(i)) ==> Apply(s, Depart(i)).jobsCount + 1 == s.jobsCount)
            && (forall i :: 0 <= i < |s.workers| ==>
                  && |s.workers[i].pending| <= (if cfg.limit == 0 then 1 else cfg.limit)
                  && (forall a <- s.workers[i].pending ::
                        s.workers[i].pending[a].isAsync && s.workers[i].pending[a].addr == a))
  {
    var s := After(Init(cfg), run);
    ReachableInv(cfg, run);
    ConfigFixed(Init(cfg), run);
    forall i | 0 <= i < |s.workers| ensures WorkerOk(cfg, s.workers[i]) { }
  }

  lemma {:induction false} ConfigFixed(s: State, run: seq<Step>)
    requires CanRun(s, run)
    ensures After(s, run).cfg == s.cfg
    decreases |run|
  {
    if run != [] {
      ConfigFixed(Apply(s, run[0]), run[1..]);
    }
  }

  /** A job that yields never overwrites another pending job, even though addresses
      are reused, and a sync job always completes in its first and only run. */
  lemma RunEndsCleanly(cfg: Config, run: seq<Step>, i: nat, done: bool)
    requires CanRun(Init(cfg), run) && Enabled(After(Init(cfg), run), Work(i, FinishRun(done)))
    ensures var s := After(Init(cfg), run);
            var w, s' := s.workers[i], Apply(s, Work(i, FinishRun(done)));
            && (forall a <- w.pending :: a in s'.workers[i].pending && s'.workers[i].pending[a] == w.pending[a])
            && (!w.phase.job.isAsync ==> s'.completed[w.phase.job] == 1 && s'.workers[i].pending == w.pending)
  {
    var s := After(Init(cfg), run);
    ReachableInv(cfg, run);
    RunsFreshJobs(s, i);
    HeldIsLive(s, i, s.workers[i].phase.job);
  }

  /** A stale wake-up, whose job is not pending at this worker, changes no job at all. */
  lemma StaleWakeUpIsHarmless(s: State, i: nat, done: bool)
    requires Enabled(s, Work(i, FinishResume(done))) && s.workers[i].phase.addr !in s.workers[i].pending
    ensures forall j :: Places(Apply(s, Work(i, FinishResume(done))), j) == Places(s, j)
    ensures Apply(s, Work(i, FinishResume(done))).completed == s.completed
  {
    var s' := Apply(s, Work(i, FinishResume(done)));
    forall j ensures Places(s', j) == Places(s, j) {
      HeldSet(s.workers, i, s'.workers[i], j);
    }
  }
}
