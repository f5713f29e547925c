/** Joining a task of the job pool (`task.rs`, `poller.rs`).
    The worker that ran the job and the thread that joins it share the
    mutex-guarded `TaskStatus`; parking and unparking happen outside the mutex.
    A task that timed out may be joined again, from any thread; `Future::poll` is
    a join that gives it back as soon as it has stored its waker. */
module TaskJoin {
  import opened Options

  type Thread = nat

  datatype Joiner<V> =
    | Holding            // nobody is joining, the caller holds the handle
    | Parked(t: Thread)  // the waker is stored, the thread parks or is about to
    | Woken(t: Thread)   // `park` has returned, the mutex is not taken yet
    | Joined(value: V)   // the result was taken and returned

  datatype Worker =
    | Running     // the job has not finished
    | Finished    // `run` returned `Complete`, the poller holds the result
    | Publishing  // inside `complete`, mutex held: result stored, waker not called yet
    | Released    // `complete` has returned

  datatype State<V> = State(
    produced: V,             // what the job computes
    result: Option<V>,       // `TaskStatus.result`
    waker: Option<Thread>,   // `TaskStatus.waker`
    tokens: set<Thread>,     // threads that hold an unpark token
    joiner: Joiner<V>,
    worker: Worker,
    taken: seq<V>)           // every result `take` ever returned

  datatype Step =
    | Join(t: Thread)
    | ParkReturns(spurious: bool)
    | Recheck
    | GiveUp
    | Unpark(t: Thread)
    | Finish
    | Publish
    | Notify

  function Init<V>(produced: V, tokens: set<Thread>): State<V> {
    State(produced, None, None, tokens, Holding, Running, [])
  }

  predicate Enabled<V>(s: State<V>, st: Step) {
    match st
    case Join(_) => s.joiner.Holding? && !s.worker.Publishing?
    case ParkReturns(spurious) => s.joiner.Parked? && (spurious || s.joiner.t in s.tokens)
    case Recheck => s.joiner.Woken? && !s.worker.Publishing?
    case GiveUp => s.joiner.Parked?
    case Unpark(_) => true
    case Finish => s.worker.Running?
    case Publish => s.worker.Finished?
    case Notify => s.worker.Publishing?
  }

  function Take<V>(s: State<V>): State<V>
    requires s.result.Some?
  {
    s.(result := None, joiner := Joined(s.result.value), taken := s.taken + [s.result.value])
  }

  function Apply<V>(s: State<V>, st: Step): State<V>
    requires Enabled(s, st)
  {
    match st
    case Join(t) => if s.result.Some? then Take(s) else s.(waker := Some(t), joiner := Parked(t))
    case ParkReturns(spurious) =>
      s.(joiner := Woken(s.joiner.t), tokens := if spurious then s.tokens else s.tokens - {s.joiner.t})
    case Recheck => if s.result.Some? then Take(s) else s.(joiner := Parked(s.joiner.t))
    case GiveUp => s.(joiner := Holding)
    case Unpark(t) => s.(tokens := s.tokens + {t})
    case Finish => s.(worker := Finished)
    case Publish => s.(worker := Publishing, result := Some(s.produced))
    case Notify => s.(worker := Released, tokens := s.tokens + (if s.waker.Some? then {s.waker.value} else {}))
  }

  predicate CanRun<V>(s: State<V>, run: seq<Step>)
    decreases |run|
  {
    run == [] || (Enabled(s, run[0]) && CanRun(Apply(s, run[0]), run[1..]))
  }

  function After<V>(s: State<V>, run: seq<Step>): State<V>
    requires CanRun(s, run)
    decreases |run|
  {
    if run == [] then s else After(Apply(s, run[0]), run[1..])
  }

  ghost predicate Inv<V>(s: State<V>) {
    && (s.joiner.Parked? || s.joiner.Woken? ==> s.waker == Some(s.joiner.t))
    && (match s.worker
        case Running => s.result == None && s.taken == []
        case Finished => s.result == None && s.taken == []
        case Publishing => s.result == Some(s.produced) && s.taken == []
        case Released => s.result == if s.taken == [] then Some(s.produced) else None)
    && (s.joiner.Joined? ==> s.taken == [s.joiner.value] && s.joiner.value == s.produced)
    && (!s.joiner.Joined? ==> s.taken == [])
    && (s.joiner.Parked? && s.worker.Released? ==> s.joiner.t in s.tokens)
  }

  lemma {:induction false} RunKeepsInv<V>(s: State<V>, run: seq<Step>)
    requires Inv(s) && CanRun(s, run)
    ensures Inv(After(s, run)) && After(s, run).produced == s.produced
    decreases |run|
  {
    if run != [] {
      RunKeepsInv(Apply(s, run[0]), run[1..]);
    }
  }

  /** No lost wake-up: over all interleavings, a joiner that is parked while a result
      is there holds an unpark token, unless the worker is just about to call the
      waker under the mutex, in which case that very call will hand it the token. */
  lemma NoLostWakeUp<V>(produced: V, tokens: set<Thread>, run: seq<Step>)
    requires CanRun(Init(produced, tokens), run)
    ensures var s := After(Init(produced, tokens), run);
            s.joiner.Parked? && s.result.Some? ==>
              || s.joiner.t in s.tokens
              || (Enabled(s, Notify) && s.joiner.t in Apply(s, Notify).tokens)
  {
    RunKeepsInv(Init(produced, tokens), run);
  }

  /** The result is taken at most once, and what the joiner gets is what the job produced. */
  lemma TakenOnce<V>(produced: V, tokens: set<Thread>, run: seq<Step>)
    requires CanRun(Init(produced, tokens), run)
    ensures var s := After(Init(produced, tokens), run);
            && |s.taken| <= 1
            && (forall v <- s.taken :: v == produced)
            && (s.joiner.Joined? <==> s.taken == [produced])
            && (s.joiner.Joined? ==> s.joiner.value == produced && s.result.None?)
  {
    RunKeepsInv(Init(produced, tokens), run);
  }

  /** Once `complete` has returned, the joining thread needs at most two steps of its
      own to return the result, whatever it was doing. */
  lemma JoinFinishes<V>(produced: V, tokens: set<Thread>, run: seq<Step>)
    requires CanRun(Init(produced, tokens), run)
    requires After(Init(produced, tokens), run).worker.Released?
    ensures var s := After(Init(produced, tokens), run);
            match s.joiner
            case Holding => forall t :: Enabled(s, Join(t)) && Apply(s, Join(t)).joiner == Joined(produced)
            case Woken(_) => Enabled(s, Recheck) && Apply(s, Recheck).joiner == Joined(produced)
            case Parked(_) =>
              && Enabled(s, ParkReturns(false)) && Enabled(Apply(s, ParkReturns(false)), Recheck)
              && Apply(Apply(s, ParkReturns(false)), Recheck).joiner == Joined(produced)
            case Joined(v) => v == produced
  {
    RunKeepsInv(Init(produced, tokens), run);
  }

  /** A join that gives up gives the task back: it holds no thread any more, nothing was
      taken, and any thread may join again, at once or as soon as the worker has released
      the mutex. */
  lemma GivenBack<V>(produced: V, tokens: set<Thread>, run: seq<Step>, t: Thread)
    requires CanRun(Init(produced, tokens), run) && Enabled(After(Init(produced, tokens), run), GiveUp)
    ensures var s := Apply(After(Init(produced, tokens), run), GiveUp);
            && s.taken == [] && s.joiner.Holding?
            && (if s.worker.Publishing? then Enabled(Apply(s, Notify), Join(t)) else Enabled(s, Join(t)))
  {
    RunKeepsInv(Init(produced, tokens), run);
  }
}
