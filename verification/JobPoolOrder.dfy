/** The waiting queue of the job pool is first in, first out, over all runs. */
module JobPoolOrder {
  import opened JobPool
  import opened JobPoolSafety

  /** The job has been taken from the queue, or never was in it, and nobody is about to queue it. */
  predicate Gone(s: State, j: Job) {
    j in s.accepted && j !in s.submitting && j !in s.waiting
  }

  lemma GoneStays(s: State, t: Step, j: Job)
    requires Gone(s, j) && Enabled(s, t)
    ensures Gone(Apply(s, t), j)
  {
    if t.Work? && t.a.Take? {
      assert Apply(s, t).waiting == s.waiting[1..];
    }
  }

  lemma {:induction false} GoneForGood(s: State, run: seq<Step>, j: Job)
    requires Gone(s, j) && CanRun(s, run)
    ensures Gone(After(s, run), j)
    decreases |run|
  {
    if run != [] {
      GoneStays(s, run[0], j);
      GoneForGood(Apply(s, run[0]), run[1..], j);
    }
  }

  /** A job in the queue is nowhere else, in particular not in it twice. */
  lemma QueuedOnce(s: State, i: nat)
    requires Inv(s) && i < |s.waiting|
    ensures s.waiting[i] in s.accepted && s.waiting[i] !in s.submitting
    ensures multiset(s.waiting)[s.waiting[i]] == 1
  {
    var j := s.waiting[i];
    assert Places(s, j) == One(j in s.accepted);
    assert j in multiset(s.waiting);
  }

  lemma TakenIsGone(s: State, w: nat)
    requires Inv(s) && Enabled(s, Work(w, Take))
    ensures Gone(Apply(s, Work(w, Take)), s.waiting[0])
  {
    QueuedOnce(s, 0);
    NotBehindItself(s.waiting);
  }

  lemma NotBehindItself(q: seq<Job>)
    requires q != [] && multiset(q)[q[0]] == 1
    ensures q[0] !in q[1..]
  {
    assert q == [q[0]] + q[1..];
    assert multiset(q[1..])[q[0]] == 0;
  }

  /** A step that does not take from the queue leaves it as it is or adds one job at its end. */
  lemma QueueGrowsAtItsEnd(s: State, t: Step)
    requires Enabled(s, t) && !(t.Work? && t.a.Take?)
    ensures s.waiting <= Apply(s, t).waiting
  {
  }

  /** `rest`, the part of the queue from some job on, is still a part of the queue, in one piece. */
  ghost predicate StillQueued(s: State, rest: seq<Job>) {
    exists m: nat :: m <= |s.waiting| && rest <= s.waiting[m..]
  }

  /** First in, first out: as long as a job of the queue has not been taken, all jobs
      behind it are still behind it, in the same order, whatever the threads do. */
  lemma {:induction false} FirstInFirstOut(s: State, run: seq<Step>, i: nat)
    requires Inv(s) && CanRun(s, run) && i < |s.waiting|
    ensures s.waiting[i] in After(s, run).waiting ==> StillQueued(After(s, run), s.waiting[i..])
    decreases |run|
  {
    if run == [] {
      assert s.waiting[i..] <= After(s, run).waiting[i..];
    } else {
      var t, s' := run[0], Apply(s, run[0]);
      StepKeepsInv(s, t);
      if t.Work? && t.a.Take? {
        if i == 0 {
          TakenIsGone(s, t.w);
          GoneForGood(s', run[1..], s.waiting[0]);
        } else {
          FirstInFirstOut(s', run[1..], i - 1);
          assert s'.waiting[i - 1..] == s.waiting[i..];
        }
      } else {
        QueueGrowsAtItsEnd(s, t);
        FirstInFirstOut(s', run[1..], i);
        MorePiece(After(s, run), s.waiting[i..], s'.waiting[i..]);
      }
    }
  }

  lemma MorePiece(s: State, rest: seq<Job>, more: seq<Job>)
    requires rest <= more
    ensures StillQueued(s, more) ==> StillQueued(s, rest)
  {
    if StillQueued(s, more) {
      var m: nat :| m <= |s.waiting| && more <= s.waiting[m..];
      assert rest <= s.waiting[m..];
    }
  }

  /** Wake-ups are noticed in the order in which they came: no step but a worker's own
      `Notice` takes from its inbox, that one takes the first, and others only add at the end. */
  lemma WakeUpsInOrder(s: State, t: Step, i: nat)
    requires Enabled(s, t) && !t.Depart? && i < |s.workers|
    ensures var w, w' := s.workers[i], Apply(s, t).workers[i];
            if t == Work(i, Notice) then w'.phase.Resuming? && [w'.phase.addr] + w'.inbox == w.inbox
            else w.inbox <= w'.inbox
  {
    if t.Work? && t.w == i {
      OwnInbox(s, s.workers[i], t.a);
    }
  }

  lemma OwnInbox(s: State, w: Worker, a: Action)
    requires ActionEnabled(s, w, a)
    ensures var w' := ActedWorker(s, w, a);
            if a == Notice then w'.phase.Resuming? && [w'.phase.addr] + w'.inbox == w.inbox else w.inbox <= w'.inbox
  {
  }

  /** A wake-up that is sent is noticed after exactly those that came before it. */
  lemma WakeUpArrives(s: State, i: nat, addr: nat)
    requires i < |s.workers|
    ensures var w, w' := s.workers[i], Apply(s, Work(i, Wake(addr))).workers[i];
            |w'.inbox| == |w.inbox| + 1 && w'.inbox[|w.inbox|] == addr
  {
  }
}
