/** Shutdowns can finish: from every reachable shutdown state some run lets all workers
    drain the queue, finish their jobs and leave. */
module JobPoolProgress {
  import opened JobPool
  import opened JobPoolSafety
  import opened JobPoolShutdown

  /** The next action of a worker that does not wind up yet, if every job it runs finishes. */
  ghost function DriveAction(s: State, w: Worker): Action {
    match w.phase
    case Unstarted => Start
    case Running(_) => FinishRun(true)
    case Idle => CheckIdle
    case Resuming(_) => FinishResume(true)
    case Leaving => Exit
    case Polling =>
      if |w.pending| < s.cfg.limit then (if s.waiting != [] then Take else Close)
      else if w.inbox == [] && w.pending != map[] then (var a :| a in w.pending; Wake(a))
      else Notice
  }

  /** How far the worker is from its loop. */
  function Distance(w: Worker): nat {
    if w.phase.Unstarted? then 2 else if w.phase.Running? || w.phase.Idle? then 1 else 0
  }

  ghost predicate Closer(w: Worker, w': Worker) {
    || |w'.pending| < |w.pending|
    || (|w'.pending| == |w.pending| && Distance(w') < Distance(w))
    || (|w'.pending| == |w.pending| && Distance(w') == Distance(w) && Rank(w') < Rank(w))
  }

  lemma DriveEnabled(s: State, w: Worker)
    requires s.cfg.limit >= 1 && s.senderDropped && WorkerOk(s.cfg, w) && !WindingUp(w)
    ensures ActionEnabled(s, w, DriveAction(s, w))
  {
  }

  lemma DriveAdvances(s: State, w: Worker)
    requires s.cfg.limit >= 1 && s.senderDropped && WorkerOk(s.cfg, w) && RunsFreshJob(s, w) && !WindingUp(w)
    requires ActionEnabled(s, w, DriveAction(s, w))
    ensures var a := DriveAction(s, w);
            var w', s' := ActedWorker(s, w, a), ActedOutside(s, w, a);
            WindingUp(w') || |s'.waiting| < |s.waiting| || (s'.waiting == s.waiting && Closer(w, w'))
  {
  }

  /** What driving one worker leaves as it is. */
  ghost predicate OnlyWorker(s: State, s': State, i: nat)
    requires i < |s.workers|
  {
    && |s'.workers| == |s.workers|
    && (forall k :: 0 <= k < |s.workers| && k != i ==> s'.workers[k] == s.workers[k])
    && s'.cfg == s.cfg && s'.senderDropped == s.senderDropped && s'.immediateClosed == s.immediateClosed
    && s'.jobsCount == s.jobsCount
  }

  lemma DriveKeeps(s: State, i: nat, a: Action)
    requires Enabled(s, Work(i, a))
    ensures OnlyWorker(s, Apply(s, Work(i, a)), i)
  {
  }

  lemma OnlyWorkerTwice(s: State, s': State, s'': State, i: nat)
    requires i < |s.workers| && OnlyWorker(s, s', i) && OnlyWorker(s', s'', i)
    ensures OnlyWorker(s, s'', i)
  {
  }

  /** Any worker can be driven until it winds up. */
  lemma Drive(s: State, i: nat) returns (run: seq<Step>)
    requires Inv(s) && s.cfg.limit >= 1 && s.senderDropped && i < |s.workers|
    ensures CanRun(s, run)
    ensures OnlyWorker(s, After(s, run), i) && WindingUp(After(s, run).workers[i])
    decreases |s.waiting|, |s.workers[i].pending|, Distance(s.workers[i]), Rank(s.workers[i])
  {
    if WindingUp(s.workers[i]) {
      run := [];
    } else {
      var w := s.workers[i];
      RunsFreshJobs(s, i);
      DriveEnabled(s, w);
      DriveAdvances(s, w);
      var t := Work(i, DriveAction(s, w));
      var s' := Apply(s, t);
      StepKeepsInv(s, t);
      DriveKeeps(s, i, t.a);
      var rest := DriveOn(s, s', i);
      Before(s, t, rest);
      run := [t] + rest;
      OnlyWorkerTwice(s, s', After(s', rest), i);
    }
  }

  lemma DriveOn(s: State, s': State, i: nat) returns (run: seq<Step>)
    requires Inv(s') && s'.cfg.limit >= 1 && s'.senderDropped && i < |s.workers| && i < |s'.workers|
    requires || WindingUp(s'.workers[i])
             || |s'.waiting| < |s.waiting|
             || (s'.waiting == s.waiting && Closer(s.workers[i], s'.workers[i]))
    ensures CanRun(s', run)
    ensures OnlyWorker(s', After(s', run), i) && WindingUp(After(s', run).workers[i])
    decreases |s.waiting|, |s.workers[i].pending|, Distance(s.workers[i]), Rank(s.workers[i]), 0
  {
    if WindingUp(s'.workers[i]) {
      run := [];
    } else {
      run := Drive(s', i);
    }
  }

  /** One worker after the other winds up. */
  lemma DriveAll(s: State, n: nat) returns (run: seq<Step>)
    requires Inv(s) && s.cfg.limit >= 1 && s.senderDropped && n <= |s.workers|
    requires forall i :: 0 <= i < n ==> WindingUp(s.workers[i])
    ensures CanRun(s, run)
    ensures AllWindingUp(After(s, run)) && After(s, run).immediateClosed == s.immediateClosed
    decreases |s.workers| - n
  {
    if n == |s.workers| {
      run := [];
    } else {
      var first := Drive(s, n);
      RunKeepsInv(s, first);
      var rest := DriveAll(After(s, first), n + 1);
      Concat(s, first, rest);
      run := first + rest;
    }
  }

  /** From every reachable shutdown state with a positive limit some run empties the pool
      while `join_timeout` still waits, so what `ShutdownExact` promises is not empty: if
      the queue is served, that run completes every accepted job that was not lost. */
  lemma ShutdownCanFinish(cfg: Config, before: seq<Step>) returns (run: seq<Step>)
    requires cfg.limit >= 1 && CanRun(Init(cfg), before) && ShuttingDown(After(Init(cfg), before))
    ensures var s := After(Init(cfg), before);
            && CanRun(s, run) && After(s, run).jobsCount == 0 && !After(s, run).immediateClosed
            && (WillDrain(s) ==> forall j <- After(s, run).accepted ::
                  After(s, run).completed[j] + After(s, run).lost[j] == 1)
  {
    var s := After(Init(cfg), before);
    ReachableInv(cfg, before);
    ConfigFixed(Init(cfg), before);
    var first := DriveAll(s, 0);
    RunKeepsInv(s, first);
    var second := WindUp(After(s, first));
    Concat(s, first, second);
    run := first + second;
    if WillDrain(s) {
      forall j | j in After(s, run).accepted
        ensures After(s, run).completed[j] + After(s, run).lost[j] == 1
      {
        DrainedRun(s, run, j);
      }
    }
  }
}
