/** What a thread inside `wait` has established about the tasks enqueued before, and that every step keeps it. */
module ExecutorWaits {
  import opened Executor
  import opened ExecutorLocks
  import opened ExecutorTasks

  // ---------------------------------------------------------------- how far a waiting thread has come

  /** The task is finished, or still where the scan of the queues from `k` on will see it or the worker that has it. */
  predicate PastQueues(s: State, t: Task, k: nat) {
    && t in s.history.place
    && match s.history.place[t]
       case Finished => true
       case Queued(j) => j >= k
       case Held(i) => i < |s.workers| && (s.workers[i].pc.Took? ==> s.workers[i].pc.j >= k)
       case _ => false
  }

  /** The task is finished, or in the hand of a busy worker that the scan of the busy flags from `k` on will see. */
  predicate PastBusy(s: State, t: Task, k: nat) {
    && t in s.history.place
    && match s.history.place[t]
       case Finished => true
       case Held(i) => k <= i < |s.workers| && !s.workers[i].pc.Took?
       case _ => false
  }

  predicate Done(s: State, t: Task) { t in s.history.place && s.history.place[t] == Finished }

  /** What the program counter of a waiting thread says about the tasks enqueued before its call. */
  ghost predicate WaitFits(s: State, pc: OuterPc) {
    match pc
    case TryWait(_, goal) => goal <= s.history.enqueued
    case SetStatus(_, goal) => goal <= s.history.enqueued
    case ScanQueue(k, _, goal) => forall t | t in goal :: PastQueues(s, t, k)
    case QueueFull(k, _, goal) => forall t | t in goal :: PastQueues(s, t, k)
    case ScanBusy(k, _, goal) => forall t | t in goal :: PastBusy(s, t, k)
    case WorkerBusy(k, _, goal) => forall t | t in goal :: PastBusy(s, t, k)
    case ResetStatus(_, goal) => forall t | t in goal :: Done(s, t)
    case LeaveWait(goal) => forall t | t in goal :: Done(s, t)
    case Returned(goal) => forall t | t in goal :: Done(s, t)
    case _ => true
  }

  ghost predicate WaitsFit(s: State) {
    !s.shared.stopped ==> forall p | 0 <= p < |s.others| :: WaitFits(s, s.others[p])
  }

  // ---------------------------------------------------------------- no step undoes progress

  /** No task moves back, as long as nothing stops the executor. */
  ghost predicate OnlyForward(s: State, s': State) {
    && s.history.enqueued <= s'.history.enqueued
    && (forall t, k :: PastQueues(s, t, k) ==> PastQueues(s', t, k))
    && (forall t, k :: PastBusy(s, t, k) ==> PastBusy(s', t, k))
    && (forall t :: Done(s, t) ==> Done(s', t))
  }

  lemma NoTaskMovesBack(s: State, s': State, agent: Agent, j: nat, event: Event)
    requires PlacesFit(s) && HistoryFits(s)
    requires TaskStep(s, s', agent, j, event) && CallStep(s, s', agent, j, event)
    requires !s'.shared.stopped
    ensures OnlyForward(s, s')
  {
    hide PastQueues, PastBusy, Done, TaskStep, CallStep;
    forall t, k ensures PastQueues(s, t, k) ==> PastQueues(s', t, k) {
      TaskMovesForward(s, s', agent, j, event, t, k);
    }
    forall t, k ensures PastBusy(s, t, k) ==> PastBusy(s', t, k) {
      TaskMovesForward(s, s', agent, j, event, t, k);
    }
    forall t ensures Done(s, t) ==> Done(s', t) {
      TaskMovesForward(s, s', agent, j, event, t, 0);
    }
    EnqueuedGrows(s, s', agent, j, event);
  }

  lemma EnqueuedGrows(s: State, s': State, agent: Agent, j: nat, event: Event)
    requires TaskStep(s, s', agent, j, event)
    ensures s.history.enqueued <= s'.history.enqueued
  {
  }

  lemma TaskMovesForward(s: State, s': State, agent: Agent, j: nat, event: Event, t: Task, k: nat)
    requires PlacesFit(s) && HistoryFits(s)
    requires TaskStep(s, s', agent, j, event) && CallStep(s, s', agent, j, event)
    requires !s'.shared.stopped
    ensures (PastQueues(s, t, k) ==> PastQueues(s', t, k)) && (PastBusy(s, t, k) ==> PastBusy(s', t, k))
    ensures Done(s, t) ==> Done(s', t)
  {
    assert At(s, PlaceOf(agent), t) <==> t in s.history.place && s.history.place[t] == PlaceOf(agent);
    assert At(s, Queued(j), t) <==> t in s.history.place && s.history.place[t] == Queued(j);
  }

  lemma StillFits(s: State, s': State, pc: OuterPc)
    requires OnlyForward(s, s') && WaitFits(s, pc)
    ensures WaitFits(s', pc)
  {
    hide PastQueues, PastBusy, Done;
  }

  // ---------------------------------------------------------------- the steps of a waiting thread

  /** A task that was enqueued is at least ahead of a scan that has not begun. */
  lemma EnqueuedIsAhead(s: State, t: Task)
    requires PlacesFit(s) && HistoryFits(s) && !s.shared.stopped && t in s.history.enqueued
    ensures PastQueues(s, t, 0)
  {
    var place := s.history.place[t];
    assert At(s, place, t);
    assert !place.Dropped?;
  }

  /** Seeing an empty queue: no task enqueued before is in it, or was just moved out of it. */
  lemma EmptyQueueIsPassed(s: State, t: Task, k: nat)
    requires LocksFit(s) && PlacesFit(s) && k < |s.queues| && s.queues[k].q == [] && PastQueues(s, t, k)
    ensures PastQueues(s, t, k + 1)
  {
    var place := s.history.place[t];
    assert At(s, place, t);
    if place.Held? && s.workers[place.i].pc.Took? {
      assert WorkerFits(s.workers[place.i], place.i, s.queues, s.shared.stopped);
    }
  }

  /** After the last queue, a task that is not finished is in the hand of a worker that is busy, or about to be called by one. */
  lemma AllQueuesPassed(s: State, t: Task)
    requires LocksFit(s) && PlacesFit(s) && PastQueues(s, t, |s.queues|)
    ensures PastBusy(s, t, 0)
  {
    var place := s.history.place[t];
    assert At(s, place, t);
    if place.Held? && s.workers[place.i].pc.Took? {
      assert WorkerFits(s.workers[place.i], place.i, s.queues, s.shared.stopped);
    }
  }

  /** A worker whose flag is down has no task that was popped. */
  lemma IdleWorkerIsPassed(s: State, t: Task, k: nat)
    requires LocksFit(s) && PlacesFit(s) && k < |s.workers| && !s.workers[k].busy && PastBusy(s, t, k)
    ensures PastBusy(s, t, k + 1)
  {
    var place := s.history.place[t];
    assert At(s, place, t);
    if place == Held(k) {
      assert WorkerFits(s.workers[k], k, s.queues, s.shared.stopped);
      assert MustBeBusy(s.workers[k].pc);
    }
  }

  lemma OuterStepWaits(s: State, p: nat, choice: bool)
    requires LocksFit(s) && TasksFit(s) && WaitsFit(s) && p < |s.others| && OuterStep(s, p, choice).Some? && !s.shared.stopped
    ensures WaitFits(s, OuterStep(s, p, choice).value.others[p])
  {
    hide LocksFit, PlacesFit, HistoryFits, CallsFit, PastQueues, PastBusy, Done, Record;
    assert WaitFits(s, s.others[p]);
    match s.others[p]
    case SetStatus(_, goal) =>
      forall t | t in goal ensures PastQueues(s, t, 0) { EnqueuedIsAhead(s, t); }
    case ScanQueue(k, _, goal) =>
      if k >= |s.queues| {
        forall t | t in goal ensures PastBusy(s, t, 0) { AllQueuesStillPassed(s, t, k); }
      } else if s.queues[k].q == [] {
        forall t | t in goal ensures PastQueues(s, t, k + 1) { EmptyQueueIsPassed(s, t, k); }
      }
    case ScanBusy(k, _, goal) =>
      if k >= |s.queues| {
        forall t | t in goal ensures Done(s, t) { AllWorkersPassed(s, t, k); }
      } else if !s.workers[k].busy {
        forall t | t in goal ensures PastBusy(s, t, k + 1) { IdleWorkerIsPassed(s, t, k); }
      }
    case _ =>
  }

  lemma AllQueuesStillPassed(s: State, t: Task, k: nat)
    requires LocksFit(s) && PlacesFit(s) && k >= |s.queues| && PastQueues(s, t, k)
    ensures PastBusy(s, t, 0)
  {
    AllQueuesPassed(s, t);
  }

  lemma AllWorkersPassed(s: State, t: Task, k: nat)
    requires Sized(s) && k >= |s.queues| && PastBusy(s, t, k)
    ensures Done(s, t)
  {
  }

  /** What the threads waiting know stays true. */
  lemma StepKeepsWaits(s: State, step: Step)
    requires LocksFit(s) && TasksFit(s) && WaitsFit(s) && Next(s, step).Some?
    ensures WaitsFit(Next(s, step).value)
  {
    var s' := Next(s, step).value;
    if !s'.shared.stopped {
      hide TaskStep, OthersKeepHands, CallStep, LocksFit, PlacesFit, HistoryFits, CallsFit, WorkerStep, OuterStep, EnterStep, WaitFits, OnlyForward;
      var agent, j, event := AnyTaskStep(s, step);
      StoppedStays(s, s', agent, j, event);
      NoTaskMovesBack(s, s', agent, j, event);
      forall p | 0 <= p < |s'.others| ensures WaitFits(s', s'.others[p]) {
        ThreadStillFits(s, step, p);
        StillFits(s, s', s'.others[p]);
      }
    }
  }

  lemma StoppedStays(s: State, s': State, agent: Agent, j: nat, event: Event)
    requires CallStep(s, s', agent, j, event)
    ensures s.shared.stopped ==> s'.shared.stopped
  {
  }

  lemma ThreadStillFits(s: State, step: Step, p: nat)
    requires LocksFit(s) && TasksFit(s) && WaitsFit(s) && Next(s, step).Some? && !s.shared.stopped && p < |s.others|
    ensures WaitFits(s, Next(s, step).value.others[p])
  {
    hide LocksFit, TasksFit, PastQueues, PastBusy, Done, MoveOuter, MoveWorker, Record;
    if step.OfOther? && step.p == p {
      OuterStepWaits(s, p, step.choice);
    } else {
      assert WaitFits(s, s.others[p]);
    }
  }
}
