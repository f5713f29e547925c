/** A run of the job pool after which `join_timeout` has returned true and an accepted
    job has not completed: the case `ShutdownExact` excludes does occur. */
module JobPoolExample {
  import opened Options
  import opened JobPool
  import opened JobPoolShutdown

  /** Step by step: `path` lists the states of the run. */
  ghost predicate Passes(path: seq<State>, run: seq<Step>) {
    && |path| == |run| + 1
    && (forall i :: 0 <= i < |run| ==> Enabled(path[i], run[i]) && Apply(path[i], run[i]) == path[i + 1])
  }

  lemma {:induction false} PassesRuns(path: seq<State>, run: seq<Step>)
    requires Passes(path, run)
    ensures CanRun(path[0], run) && After(path[0], run) == path[|run|]
    decreases |run|
  {
    if run != [] {
      assert Passes(path[1..], run[1..]);
      PassesRuns(path[1..], run[1..]);
    }
  }

  const CONFIG := Config(0, 1, 1, None)
  const JOB := Job(0, 0, false)

  function Pool(
    workers: seq<Worker>, waiting: seq<Job>, submitting: map<Job, Stage>, dropped: bool, accepted: set<Job>): State
  {
    State(CONFIG, |workers|, workers, waiting, submitting, dropped, false, None, accepted, {}, multiset{}, multiset{})
  }

  function Alone(phase: Phase, active: bool): seq<Worker> {
    [Worker(phase, None, active, map[], [])]
  }

  /** The only worker has timed out but not asked `on_idle` yet. */
  const IDLING: seq<Step> := [Client(SpawnIdle), Work(0, Start), Work(0, TimeOut)]

  lemma Idles()
    ensures CanRun(Init(CONFIG), IDLING) && After(Init(CONFIG), IDLING) == Pool(Alone(Idle, true), [], map[], false, {})
  {
    PassesRuns([Init(CONFIG), Pool(Alone(Unstarted, false), [], map[], false, {}),
                Pool(Alone(Polling, true), [], map[], false, {}),
                Pool(Alone(Idle, true), [], map[], false, {})], IDLING);
  }

  /** Nobody receives the job. */
  const OFFERING: seq<Step> := [Client(Submit(JOB)), Client(NoReceiver(JOB))]

  lemma Offers(ws: seq<Worker>)
    ensures var s := Pool(ws, [], map[], false, {});
            CanRun(s, OFFERING) && After(s, OFFERING) == Pool(ws, [], map[JOB := Spawning], false, {JOB})
  {
    PassesRuns([Pool(ws, [], map[], false, {}), Pool(ws, [], map[JOB := TryingImmediate], false, {JOB}),
                Pool(ws, [], map[JOB := Spawning], false, {JOB})], OFFERING);
  }

  /** No worker can be added, so the job is queued; then the pool is joined. */
  const QUEUEING: seq<Step> := [Client(SpawnFor(JOB)), Client(TryQueue(JOB)), DropSender]

  lemma Queues(ws: seq<Worker>)
    requires |ws| == 1
    ensures var s := Pool(ws, [], map[JOB := Spawning], false, {JOB});
            CanRun(s, QUEUEING) && After(s, QUEUEING) == Pool(ws, [JOB], map[], true, {JOB})
  {
    PassesRuns([Pool(ws, [], map[JOB := Spawning], false, {JOB}), Pool(ws, [], map[JOB := TryingQueue], false, {JOB}),
                Pool(ws, [JOB], map[], false, {JOB}), Pool(ws, [JOB], map[], true, {JOB})], QUEUEING);
  }

  lemma Submits(ws: seq<Worker>)
    requires |ws| == 1
    ensures var s := Pool(ws, [], map[], false, {});
            CanRun(s, OFFERING + QUEUEING) && After(s, OFFERING + QUEUEING) == Pool(ws, [JOB], map[], true, {JOB})
  {
    Offers(ws);
    Queues(ws);
    Concat(Pool(ws, [], map[], false, {}), OFFERING, QUEUEING);
  }

  /** `on_idle` lets the worker go. */
  const RETIRING: seq<Step> := [Work(0, CheckIdle), Work(0, Exit)]

  lemma Retires()
    ensures var s := Pool(Alone(Idle, true), [JOB], map[], true, {JOB});
            CanRun(s, RETIRING) && After(s, RETIRING) == s.(workers := Alone(Leaving, false))
  {
    PassesRuns([Pool(Alone(Idle, true), [JOB], map[], true, {JOB}),
                Pool(Alone(Polling, false), [JOB], map[], true, {JOB}),
                Pool(Alone(Leaving, false), [JOB], map[], true, {JOB})], RETIRING);
  }

  /** `join_timeout` finds the pool empty. */
  const JOINING: seq<Step> := [Depart(0), JoinReturns(true)]

  lemma Joins()
    ensures var s := Pool(Alone(Leaving, false), [JOB], map[], true, {JOB});
            && CanRun(s, JOINING)
            && After(s, JOINING)
               == Pool([], [JOB], map[], true, {JOB}).(immediateClosed := true, joinResult := Some(true))
  {
    var gone := Pool([], [JOB], map[], true, {JOB});
    PassesRuns([Pool(Alone(Leaving, false), [JOB], map[], true, {JOB}), gone,
                gone.(immediateClosed := true, joinResult := Some(true))], JOINING);
  }

  lemma Leaves()
    ensures var s := Pool(Alone(Idle, true), [JOB], map[], true, {JOB});
            && CanRun(s, RETIRING + JOINING)
            && After(s, RETIRING + JOINING)
               == Pool([], [JOB], map[], true, {JOB}).(immediateClosed := true, joinResult := Some(true))
  {
    Retires();
    Joins();
    Concat(Pool(Alone(Idle, true), [JOB], map[], true, {JOB}), RETIRING, JOINING);
  }

  const SUBMITTING := OFFERING + QUEUEING
  const LEAVING := RETIRING + JOINING

  /** `join_timeout` returns true although the one accepted job still waits; the state
      in which the sender was dropped told: no worker was bound to look at the queue. */
  lemma StrandingRun()
    ensures CanRun(Init(CONFIG), IDLING + SUBMITTING)
    ensures var s := After(Init(CONFIG), IDLING + SUBMITTING); ShuttingDown(s) && !WillDrain(s)
    ensures CanRun(Init(CONFIG), IDLING + SUBMITTING + LEAVING)
    ensures var s := After(Init(CONFIG), IDLING + SUBMITTING + LEAVING);
            s.joinResult == Some(true) && JOB in s.accepted && s.completed[JOB] + s.lost[JOB] == 0
  {
    Idles();
    Submits(Alone(Idle, true));
    Leaves();
    Concat(Init(CONFIG), IDLING, SUBMITTING);
    Concat(Init(CONFIG), IDLING + SUBMITTING, LEAVING);
  }
}
