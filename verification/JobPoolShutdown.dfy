/** Shutting the job pool down: exactly when `join_timeout` returning true means
    that every accepted job has completed. */
module JobPoolShutdown {
  import opened Options
  import opened JobPool
  import opened JobPoolSafety

  /** The worker is bound to look at the waiting queue again: its thread is about to
      start, it runs its loop actively, or it is about to hear from `on_idle` that it
      has to stay. */
  predicate Serving(s: State, w: Worker) {
    || w.phase.Unstarted?
    || (w.active && (w.phase.Polling? || w.phase.Running? || w.phase.Resuming?))
    || (w.phase.Idle? && s.jobsCount <= s.cfg.minJobs)
  }

  /** What decides the outcome of a shutdown, readable in the state in which the sender is dropped. */
  predicate WillDrain(s: State) {
    s.waiting == [] || exists i :: 0 <= i < |s.workers| && Serving(s, s.workers[i])
  }

  predicate ShuttingDown(s: State) {
    s.senderDropped && !s.immediateClosed
  }

  // ---- Draining is kept ---------------------------------------------------

  /** While the queue is closed but not empty, a serving worker goes on serving. */
  lemma ServingGoesOn(s: State, w: Worker, a: Action)
    requires s.cfg.limit >= 1 && ShuttingDown(s) && s.waiting != []
    requires WorkerOk(s.cfg, w) && Serving(s, w) && ActionEnabled(s, w, a)
    ensures Serving(s, ActedWorker(s, w, a))
  {
  }

  lemma WorkKeepsWillDrain(s: State, i: nat, a: Action)
    requires s.cfg.limit >= 1 && Inv(s) && ShuttingDown(s) && WillDrain(s) && Enabled(s, Work(i, a))
    ensures WillDrain(Apply(s, Work(i, a)))
  {
    var s' := Apply(s, Work(i, a));
    if s.waiting != [] {
      var k :| 0 <= k < |s.workers| && Serving(s, s.workers[k]);
      if k == i {
        ServingGoesOn(s, s.workers[i], a);
      }
      assert Serving(s', s'.workers[k]);
    }
  }

  lemma DepartKeepsWillDrain(s: State, i: nat)
    requires WillDrain(s) && Enabled(s, Depart(i))
    ensures WillDrain(Apply(s, Depart(i)))
  {
    var s' := Apply(s, Depart(i));
    if s.waiting != [] {
      var k :| 0 <= k < |s.workers| && Serving(s, s.workers[k]);
      assert k != i;
      var k' := if k < i then k else k - 1;
      assert s'.workers[k'] == s.workers[k];
      assert Serving(s', s'.workers[k']);
    }
  }

  lemma StepKeepsWillDrain(s: State, t: Step)
    requires s.cfg.limit >= 1 && Inv(s) && ShuttingDown(s) && WillDrain(s) && Enabled(s, t)
    ensures WillDrain(Apply(s, t))
  {
    var s' := Apply(s, t);
    if t.Work? {
      WorkKeepsWillDrain(s, t.w, t.a);
    } else if t.Depart? {
      DepartKeepsWillDrain(s, t.w);
    } else if s.waiting != [] {
      var k :| 0 <= k < |s.workers| && Serving(s, s.workers[k]);
      assert Serving(s', s'.workers[k]);
    }
  }

  lemma {:induction false} ClosedStaysClosed(s: State, run: seq<Step>)
    requires CanRun(s, run)
    ensures s.immediateClosed ==> After(s, run).immediateClosed
    decreases |run|
  {
    if run != [] {
      ClosedStaysClosed(Apply(s, run[0]), run[1..]);
    }
  }

  lemma {:induction false} RunKeepsWillDrain(s: State, run: seq<Step>)
    requires s.cfg.limit >= 1 && Inv(s) && ShuttingDown(s) && WillDrain(s)
    requires CanRun(s, run) && !After(s, run).immediateClosed
    ensures WillDrain(After(s, run))
    decreases |run|
  {
    if run != [] {
      var s' := Apply(s, run[0]);
      ClosedStaysClosed(s', run[1..]);
      StepKeepsInv(s, run[0]);
      StepKeepsWillDrain(s, run[0]);
      RunKeepsWillDrain(s', run[1..]);
    }
  }

  /** With no worker left and an empty queue, the accepted jobs are exactly those
      that completed, once each, and those lost with a thread that was never spawned. */
  lemma NothingLeft(s: State, j: Job)
    requires Inv(s) && s.senderDropped && s.jobsCount == 0 && s.waiting == []
    ensures s.completed[j] + s.lost[j] == (if j in s.accepted then 1 else 0)
  {
    assert Places(s, j) == One(j in s.accepted);
  }

  // ---- A run that strands the queue ---------------------------------------

  lemma {:induction false} Concat(s: State, a: seq<Step>, b: seq<Step>)
    requires CanRun(s, a) && CanRun(After(s, a), b)
    ensures CanRun(s, a + b) && After(s, a + b) == After(After(s, a), b)
    decreases |a|
  {
    if a == [] {
      assert a + b == b;
    } else {
      var s' := Apply(s, a[0]);
      Concat(s', a[1..], b);
      SplitFirst(a, b);
      Before(s, a[0], a[1..] + b);
    }
  }

  lemma SplitFirst<T>(a: seq<T>, b: seq<T>)
    requires a != []
    ensures a + b == [a[0]] + (a[1..] + b)
  {
  }

  lemma Before(s: State, t: Step, rest: seq<Step>)
    requires Enabled(s, t) && CanRun(Apply(s, t), rest)
    ensures CanRun(s, [t] + rest) && After(s, [t] + rest) == After(Apply(s, t), rest)
  {
    assert ([t] + rest)[1..] == rest;
  }

  /** The worker takes nothing from the waiting queue any more and only has to wind up. */
  predicate WindingUp(w: Worker) {
    w.phase.Leaving? || ((w.phase.Polling? || w.phase.Resuming?) && !w.active)
  }

  predicate AllWindingUp(s: State) {
    forall i :: 0 <= i < |s.workers| ==> WindingUp(s.workers[i])
  }

  /** One more action of the worker can make it wind up: `on_idle` lets it go, or
      the rendezvous queue it polls is closed because `join_deadline` has returned. */
  predicate MayRetire(s: State, w: Worker) {
    || WindingUp(w)
    || (w.phase.Idle? && s.jobsCount > s.cfg.minJobs)
    || (Takes(s, w) && s.immediateClosed)
  }

  /** All workers that may retire can do so before any worker departs. */
  lemma Retire(s: State, n: nat) returns (run: seq<Step>)
    requires n <= |s.workers|
    requires forall i :: 0 <= i < n ==> WindingUp(s.workers[i])
    requires forall i :: n <= i < |s.workers| ==> MayRetire(s, s.workers[i])
    ensures CanRun(s, run)
    ensures var s' := After(s, run);
            AllWindingUp(s') && s' == s.(workers := s'.workers)
    decreases |s.workers| - n
  {
    if n == |s.workers| {
      run := [];
    } else if WindingUp(s.workers[n]) {
      run := Retire(s, n + 1);
    } else {
      var t := Work(n, if s.workers[n].phase.Idle? then CheckIdle else Close);
      var rest := Retire(Apply(s, t), n + 1);
      run := [t] + rest;
      assert run[1..] == rest;
    }
  }

  /** How far a winding-up worker is from its next completed job or its departure. */
  function Rank(w: Worker): nat {
    if w.phase.Leaving? then 0
    else if w.phase.Resuming? then
      if w.phase.addr in w.pending then 0 else 3 + 2 * |w.inbox|
    else if w.pending == map[] then 1
    else if w.inbox == [] then 2
    else if w.inbox[0] in w.pending then 1
    else 2 + 2 * |w.inbox|
  }

  /** The next action of a winding-up worker whose environment lets it finish. */
  ghost function WindUpAction(w: Worker): Action {
    if w.phase.Resuming? then FinishResume(true)
    else if w.pending == map[] then Exit
    else if w.inbox == [] then var a :| a in w.pending; Wake(a)
    else Notice
  }

  lemma WindUpAdvances(s: State, w: Worker)
    requires WorkerOk(s.cfg, w) && WindingUp(w) && !w.phase.Leaving?
    ensures ActionEnabled(s, w, WindUpAction(w))
    ensures var w' := ActedWorker(s, w, WindUpAction(w));
            && WindingUp(w')
            && (|w'.pending| < |w.pending| || (|w'.pending| == |w.pending| && Rank(w') < Rank(w)))
    ensures ActedOutside(s, w, WindUpAction(w)).waiting == s.waiting
  {
  }

  /** Winding-up workers can all leave without anybody touching the waiting queue. */
  lemma WindUp(s: State) returns (run: seq<Step>)
    requires Inv(s) && AllWindingUp(s)
    ensures CanRun(s, run)
    ensures var s' := After(s, run);
            s'.jobsCount == 0 && s'.waiting == s.waiting && s'.immediateClosed == s.immediateClosed
    decreases |s.workers|,
              if s.workers == [] then 0 else |s.workers[0].pending|,
              if s.workers == [] then 0 else Rank(s.workers[0])
  {
    if s.workers == [] {
      run := [];
    } else {
      var w := s.workers[0];
      var t := if w.phase.Leaving? then Depart(0) else Work(0, WindUpAction(w));
      if !w.phase.Leaving? {
        WindUpAdvances(s, w);
      }
      var s1 := Apply(s, t);
      StepKeepsInv(s, t);
      assert AllWindingUp(s1);
      var rest := WindUp(s1);
      run := [t] + rest;
      assert run[1..] == rest;
    }
  }

  /** If every worker may retire, some run ends with no worker left and the waiting
      queue as it was: its jobs never complete.  During a shutdown this is the case
      when no worker is serving; after `join_deadline` gave up at its deadline it is
      the case whenever the workers are polling, however many jobs still wait. */
  lemma Strands(s: State) returns (run: seq<Step>)
    requires Inv(s) && forall i :: 0 <= i < |s.workers| ==> MayRetire(s, s.workers[i])
    ensures CanRun(s, run)
    ensures var s' := After(s, run);
            s'.jobsCount == 0 && s'.waiting == s.waiting && s'.immediateClosed == s.immediateClosed
  {
    var first := Retire(s, 0);
    var mid := After(s, first);
    RunKeepsInv(s, first);
    var second := WindUp(mid);
    Concat(s, first, second);
    run := first + second;
  }

  // ---- The theorem --------------------------------------------------------

  /** Every state of the run in which the workers are gone and `join_deadline` still
      waits, which is the state in which it returns true, has all accepted jobs done. */
  ghost predicate ShutsDownCompletely(s: State) {
    forall run :: CanRun(s, run) && !After(s, run).immediateClosed && After(s, run).jobsCount == 0 ==>
      forall j :: After(s, run).completed[j] + After(s, run).lost[j] == (if j in After(s, run).accepted then 1 else 0)
  }

  /** Shutdown completeness, exactly: in any reachable state of a shutdown with a
      positive concurrency limit, all continuations that empty the pool while
      `join_timeout` waits complete every accepted job once, if and only if the
      waiting queue is empty or some worker is bound to look at it again. */
  lemma ShutdownExact(cfg: Config, before: seq<Step>)
    requires cfg.limit >= 1 && CanRun(Init(cfg), before)
    requires ShuttingDown(After(Init(cfg), before))
    ensures WillDrain(After(Init(cfg), before)) <==> ShutsDownCompletely(After(Init(cfg), before))
  {
    var s := After(Init(cfg), before);
    ReachableInv(cfg, before);
    ConfigFixed(Init(cfg), before);
    if WillDrain(s) {
      forall run, j | CanRun(s, run) && !After(s, run).immediateClosed && After(s, run).jobsCount == 0
        ensures After(s, run).completed[j] + After(s, run).lost[j] == (if j in After(s, run).accepted then 1 else 0)
      {
        DrainedRun(s, run, j);
      }
    } else {
      forall i | 0 <= i < |s.workers| ensures MayRetire(s, s.workers[i]) {
        assert WorkerOk(s.cfg, s.workers[i]) && !Serving(s, s.workers[i]);
      }
      var run := Strands(s);
      RunKeepsInv(s, run);
      var s' := After(s, run);
      StrandedJob(s', s'.waiting[0]);
    }
  }

  lemma DrainedRun(s: State, run: seq<Step>, j: Job)
    requires s.cfg.limit >= 1 && Inv(s) && ShuttingDown(s) && WillDrain(s)
    requires CanRun(s, run) && !After(s, run).immediateClosed && After(s, run).jobsCount == 0
    ensures After(s, run).completed[j] + After(s, run).lost[j] == (if j in After(s, run).accepted then 1 else 0)
  {
    RunKeepsWillDrain(s, run);
    RunKeepsInv(s, run);
    DroppedStaysDropped(s, run);
    NothingLeft(After(s, run), j);
  }

  lemma {:induction false} DroppedStaysDropped(s: State, run: seq<Step>)
    requires CanRun(s, run)
    ensures s.senderDropped ==> After(s, run).senderDropped
    decreases |run|
  {
    if run != [] {
      DroppedStaysDropped(Apply(s, run[0]), run[1..]);
    }
  }

  lemma StrandedJob(s: State, j: Job)
    requires Inv(s) && j in s.waiting
    ensures j in s.accepted && s.completed[j] + s.lost[j] == 0
  {
    assert Places(s, j) == One(j in s.accepted);
    assert multiset(s.waiting)[j] > 0;
  }

  /** `join_timeout` returned true only if the pool was empty while it waited. */
  predicate JoinOutcome(s: State) {
    || (ShuttingDown(s) && WillDrain(s) && s.joinResult.None?)
    || (s.joinResult == Some(true) && s.senderDropped && s.workers == [] && s.waiting == [])
    || s.joinResult == Some(false)
  }

  lemma {:induction false} RunKeepsJoinOutcome(s: State, run: seq<Step>)
    requires s.cfg.limit >= 1 && Inv(s) && JoinOutcome(s) && (s.joinResult == Some(false) ==> s.immediateClosed)
    requires CanRun(s, run)
    ensures JoinOutcome(After(s, run))
    decreases |run|
  {
    if run != [] {
      StepKeepsInv(s, run[0]);
      StepKeepsJoinOutcome(s, run[0]);
      RunKeepsJoinOutcome(Apply(s, run[0]), run[1..]);
    }
  }

  lemma StepKeepsJoinOutcome(s: State, t: Step)
    requires s.cfg.limit >= 1 && Inv(s) && JoinOutcome(s) && (s.joinResult == Some(false) ==> s.immediateClosed)
    requires Enabled(s, t)
    ensures var s' := Apply(s, t); JoinOutcome(s') && (s'.joinResult == Some(false) ==> s'.immediateClosed)
  {
    if ShuttingDown(s) && WillDrain(s) {
      StepKeepsWillDrain(s, t);
    }
  }

  /** `join_timeout` returning true, at any later moment, means that every accepted
      job completed exactly once, provided the queue was bound to drain when the
      sender was dropped; jobs of threads that could not be spawned are the exception. */
  lemma JoinTrueMeansDone(cfg: Config, before: seq<Step>, after: seq<Step>, j: Job)
    requires cfg.limit >= 1 && CanRun(Init(cfg), before)
    requires var s := After(Init(cfg), before);
             && ShuttingDown(s) && s.joinResult.None? && WillDrain(s)
             && CanRun(s, after) && After(s, after).joinResult == Some(true)
    ensures var s' := After(After(Init(cfg), before), after);
            s'.completed[j] + s'.lost[j] == (if j in s'.accepted then 1 else 0)
  {
    var s := After(Init(cfg), before);
    ReachableInv(cfg, before);
    ConfigFixed(Init(cfg), before);
    RunKeepsJoinOutcome(s, after);
    RunKeepsInv(s, after);
    NothingLeft(After(s, after), j);
  }

  /** Jobs are lost only with threads that cannot be spawned. */
  lemma {:induction false} NothingLost(s: State, run: seq<Step>)
    requires CanRun(s, run) && s.lost == multiset{}
    requires forall t <- run :: t.Work? ==> !t.a.SpawnFail?
    ensures After(s, run).lost == multiset{}
    decreases |run|
  {
    if run != [] {
      assert run[0] in run;
      NothingLost(Apply(s, run[0]), run[1..]);
    }
  }

  /** A pool whose workers may run no job concurrently never takes a queued job. */
  lemma {:induction false} ZeroLimitNeverTakes(s: State, run: seq<Step>)
    requires s.cfg.limit == 0 && CanRun(s, run)
    ensures s.waiting <= After(s, run).waiting
    decreases |run|
  {
    if run != [] {
      ZeroLimitNeverTakes(Apply(s, run[0]), run[1..]);
    }
  }
}
