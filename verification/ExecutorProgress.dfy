/** When a push is held back, that no thread waits for ever on a lock, and what a thread does when it runs alone. */
module ExecutorProgress {
  import opened Options
  import opened Executor
  import opened ExecutorLocks
  import opened ExecutorTasks
  import opened ExecutorTheorems

  // ---------------------------------------------------------------- the gate of push, over runs

  /** `waiting_` is `status` in every state of the run. */
  ghost predicate WaitingStays(s: State, steps: seq<Step>, status: WaitStatus)
    requires Sized(s)
    decreases |steps|
  {
    && s.shared.waiting == status
    && (steps == [] || (Next(s, steps[0]).Some? ==> WaitingStays(Next(s, steps[0]).value, steps[1..], status)))
  }

  /** Inside `push` with `t`, before it goes on to choose a queue. */
  predicate BeforeGate(pc: OuterPc, t: Task) {
    pc == ReadReject(t) || pc == ReadBlock(t) || pc == LockWait(t) || pc == HoldWait(t)
  }

  lemma StepStaysBeforeGate(s: State, step: Step, p: nat, t: Task)
    requires Sized(s) && Next(s, step).Some? && p < |s.others| && BeforeGate(s.others[p], t)
    requires s.shared.waiting == BlockIncoming
    ensures BeforeGate(Next(s, step).value.others[p], t)
  {
    hide MoveWorker, Record;
  }

  lemma {:induction false} RunStaysBeforeGate(s: State, steps: seq<Step>, p: nat, t: Task)
    requires Sized(s) && Run(s, steps).Some? && p < |s.others| && BeforeGate(s.others[p], t)
    requires WaitingStays(s, steps, BlockIncoming)
    ensures p < |Run(s, steps).value.others| && BeforeGate(Run(s, steps).value.others[p], t)
    decreases |steps|
  {
    hide Next, BeforeGate;
    if steps != [] {
      StepStaysBeforeGate(s, steps[0], p, t);
      RunStaysBeforeGate(Next(s, steps[0]).value, steps[1..], p, t);
    }
  }

  lemma BeforeGateIsNotEnqueued(s: State, p: nat, t: Task)
    requires Reachable(s) && p < |s.others| && BeforeGate(s.others[p], t)
    ensures t !in s.history.enqueued && t !in s.history.rejected && t !in s.history.dropped
  {
    ReachableFits(s);
    assert At(s, Pushing(p), t);
    assert At(s, Rejected, t) <==> t in s.history.place && s.history.place[t] == Rejected;
    assert At(s, Dropped, t) <==> t in s.history.place && s.history.place[t] == Dropped;
  }

  /**
    * While `waiting_` stays `BlockIncoming`, a push that has not passed the gate does not pass it: over every run its
    * task is not enqueued.
    */
  lemma BlockedPushIsHeldBack(s: State, p: nat, t: Task, steps: seq<Step>)
    requires Reachable(s) && Sized(s) && p < |s.others| && BeforeGate(s.others[p], t)
    requires Run(s, steps).Some? && WaitingStays(s, steps, BlockIncoming)
    ensures var end := Run(s, steps).value;
            t !in end.history.enqueued && p < |end.others| && BeforeGate(end.others[p], t)
  {
    hide Reachable, Run, WaitingStays;
    ReachableRun(s, steps);
    RunStaysBeforeGate(s, steps, p, t);
    BeforeGateIsNotEnqueued(Run(s, steps).value, p, t);
  }

  /** The push has not looked yet, or its task is rejected. */
  predicate AboutToReject(s: State, p: nat, t: Task) {
    p < |s.others| && (s.others[p] == ReadReject(t) || t in s.history.rejected)
  }

  lemma StepRejects(s: State, step: Step, p: nat, t: Task)
    requires Sized(s) && Next(s, step).Some? && AboutToReject(s, p, t) && s.shared.waiting == RejectIncoming
    ensures AboutToReject(Next(s, step).value, p, t)
    ensures step.OfOther? && step.p == p && s.others[p] == ReadReject(t) ==> t in Next(s, step).value.history.rejected
  {
    hide MoveWorker;
  }

  lemma {:induction false} RunRejects(s: State, steps: seq<Step>, p: nat, t: Task)
    requires Sized(s) && Run(s, steps).Some? && AboutToReject(s, p, t) && WaitingStays(s, steps, RejectIncoming)
    ensures AboutToReject(Run(s, steps).value, p, t)
    decreases |steps|
  {
    hide Next, AboutToReject;
    if steps != [] {
      StepRejects(s, steps[0], p, t);
      RunRejects(Next(s, steps[0]).value, steps[1..], p, t);
    }
  }

  /** While `waiting_` stays `RejectIncoming`, a push that starts ends by rejecting its task, which is never enqueued. */
  lemma RejectedPushEnqueuesNothing(s: State, p: nat, t: Task, steps: seq<Step>)
    requires Reachable(s) && Sized(s) && p < |s.others| && s.others[p] == ReadReject(t)
    requires Run(s, steps).Some? && WaitingStays(s, steps, RejectIncoming)
    ensures var end := Run(s, steps).value;
            t !in end.history.enqueued && p < |end.others| && (end.others[p] == ReadReject(t) || t in end.history.rejected)
  {
    hide Reachable, Run, WaitingStays;
    ReachableRun(s, steps);
    RunRejects(s, steps, p, t);
    var end := Run(s, steps).value;
    if t in end.history.rejected {
      RejectedIsNotEnqueued(end, t);
    } else {
      BeforeGateIsNotEnqueued(end, p, t);
    }
  }

  lemma RejectedIsNotEnqueued(s: State, t: Task)
    requires Reachable(s) && t in s.history.rejected
    ensures t !in s.history.enqueued
  {
    ReachableFits(s);
    assert At(s, Rejected, t);
  }

  /** Not sent to wait for the gate, and not rejected. */
  predicate NotHeldBack(s: State, p: nat, t: Task) {
    p < |s.others| && !s.others[p].LockWait? && !s.others[p].HoldWait? && t in s.history.place && t !in s.history.rejected
  }

  lemma MovePasses(pc: OuterPc, queue: Queue, busy: bool, sh: Shared, p: nat, j: nat, n: nat, choice: bool, m: OuterMove)
    requires MoveOuter(pc, queue, busy, sh, p, j, n, choice) == Some(m) && !pc.LockWait? && !pc.HoldWait?
    requires sh.waiting == Open || sh.waiting == AllowIncoming
    ensures !m.pc.LockWait? && !m.pc.HoldWait? && !m.event.Rejects?
  {
  }

  lemma WorkerRejectsNothing(w: Worker, queue: Queue, stopped: bool, i: nat, j: nat, n: nat, choice: bool, m: WorkerMove)
    requires MoveWorker(w, queue, stopped, i, j, n, choice) == Some(m)
    ensures !m.event.Rejects?
  {
  }

  lemma StepPasses(s: State, step: Step, p: nat, t: Task)
    requires Sized(s) && Next(s, step).Some? && NotHeldBack(s, p, t)
    requires s.shared.waiting == Open || s.shared.waiting == AllowIncoming
    ensures NotHeldBack(Next(s, step).value, p, t)
  {
    hide MoveOuter, MoveWorker;
    match step
    case OfWorker(i, choice) =>
      var j := WorkerTarget(s.workers[i].pc, i, |s.workers|);
      var m := MoveWorker(s.workers[i], s.queues[j], s.shared.stopped, i, j, |s.workers|, choice).value;
      WorkerRejectsNothing(s.workers[i], s.queues[j], s.shared.stopped, i, j, |s.workers|, choice, m);
    case OfOther(q, choice) =>
      var j := OuterTarget(s.others[q], |s.queues|);
      var m := MoveOuter(s.others[q], s.queues[j], s.workers[j].busy, s.shared, q, j, |s.queues|, choice).value;
      OuterRejectsNothing(s.others[q], s.queues[j], s.workers[j].busy, s.shared, q, j, |s.queues|, choice, m);
      if q == p {
        MovePasses(s.others[q], s.queues[j], s.workers[j].busy, s.shared, q, j, |s.queues|, choice, m);
      }
    case Enter(_, _) =>
  }

  lemma OuterRejectsNothing(pc: OuterPc, queue: Queue, busy: bool, sh: Shared, p: nat, j: nat, n: nat, choice: bool, m: OuterMove)
    requires MoveOuter(pc, queue, busy, sh, p, j, n, choice) == Some(m)
    requires sh.waiting == Open || sh.waiting == AllowIncoming
    ensures !m.event.Rejects?
  {
  }

  /** With any other status, no push waits for the gate or is rejected. */
  lemma {:induction false} OpenGateHoldsNothingBack(s: State, p: nat, t: Task, steps: seq<Step>, status: WaitStatus)
    requires Sized(s) && Run(s, steps).Some? && NotHeldBack(s, p, t)
    requires WaitingStays(s, steps, status) && (status == Open || status == AllowIncoming)
    ensures NotHeldBack(Run(s, steps).value, p, t)
    decreases |steps|
  {
    hide Next, NotHeldBack;
    if steps != [] {
      StepPasses(s, steps[0], p, t);
      OpenGateHoldsNothingBack(Next(s, steps[0]).value, p, t, steps[1..], status);
    }
  }

  // ---------------------------------------------------------------- no deadlock

  /** Whoever a mutex says holds it does hold it. */
  predicate HolderHolds(s: State, j: nat)
    requires j < |s.queues|
  {
    match s.queues[j].holder
    case None => true
    case Some(Pool(i)) => i < |s.workers| && WorkerLock(s.workers[i].pc) == Some(j)
    case Some(Outside(p)) => p < |s.others| && OuterLock(s.others[p]) == Some(j)
  }

  predicate HoldersHold(s: State) { forall j | 0 <= j < |s.queues| :: HolderHolds(s, j) }

  /** A step of a thread that holds a queue is about that queue, and it holds one afterwards as the queue says. */
  lemma WorkerKeepsHolding(w: Worker, queues: seq<Queue>, stopped: bool, i: nat, n: nat, choice: bool, m: WorkerMove)
    requires i < n == |queues| && WorkerFits(w, i, queues, stopped)
    requires var j := WorkerTarget(w.pc, i, n);
             j < n && MoveWorker(w, queues[j], stopped, i, j, n, choice) == Some(m)
    ensures var j := WorkerTarget(w.pc, i, n);
            && (WorkerLock(w.pc).Some? ==> WorkerLock(w.pc) == Some(j))
            && (m.queue.holder == Some(Pool(i)) ==> queues[j].holder != Some(Pool(i)) || WorkerLock(w.pc) == Some(j) ==> WorkerLock(m.worker.pc) == Some(j))
            && (m.queue.holder == queues[j].holder || m.queue.holder == None || m.queue.holder == Some(Pool(i)))
            && (WorkerLock(w.pc) == Some(j) && WorkerLock(m.worker.pc) != Some(j) ==> m.queue.holder == None)
  {
  }

  lemma OuterKeepsHolding(pc: OuterPc, queues: seq<Queue>, busy: bool, sh: Shared, p: nat, n: nat, choice: bool, m: OuterMove)
    requires 0 < n == |queues| && OuterFits(pc, p, queues, sh.stopped)
    requires var j := OuterTarget(pc, n);
             j < n && MoveOuter(pc, queues[j], busy, sh, p, j, n, choice) == Some(m)
    ensures var j := OuterTarget(pc, n);
            && (OuterLock(pc).Some? ==> OuterLock(pc) == Some(j))
            && (m.queue.holder == Some(Outside(p)) ==> queues[j].holder != Some(Outside(p)) || OuterLock(pc) == Some(j) ==> OuterLock(m.pc) == Some(j))
            && (m.queue.holder == queues[j].holder || m.queue.holder == None || m.queue.holder == Some(Outside(p)))
            && (OuterLock(pc) == Some(j) && OuterLock(m.pc) != Some(j) ==> m.queue.holder == None)
  {
  }

  lemma WorkerStepHolds(s: State, i: nat, choice: bool)
    requires LocksFit(s) && HoldersHold(s) && i < |s.workers| && WorkerStep(s, i, choice).Some?
    ensures HoldersHold(WorkerStep(s, i, choice).value)
  {
    hide WorkerFits, OuterFits, QueueFits, MoveWorker, Record, WorkerLock, OuterLock;
    var n := |s.workers|;
    var j := WorkerTarget(s.workers[i].pc, i, n);
    var m := MoveWorker(s.workers[i], s.queues[j], s.shared.stopped, i, j, n, choice).value;
    WorkerKeepsHolding(s.workers[i], s.queues, s.shared.stopped, i, n, choice, m);
    var s' := WorkerStep(s, i, choice).value;
    forall k | 0 <= k < n ensures HolderHolds(s', k) {
      assert HolderHolds(s, k);
    }
  }

  lemma OuterStepHolds(s: State, p: nat, choice: bool)
    requires LocksFit(s) && HoldersHold(s) && p < |s.others| && OuterStep(s, p, choice).Some?
    ensures HoldersHold(OuterStep(s, p, choice).value)
  {
    hide WorkerFits, OuterFits, QueueFits, MoveOuter, Record, WorkerLock, OuterLock;
    var n := |s.queues|;
    var j := OuterTarget(s.others[p], n);
    var m := MoveOuter(s.others[p], s.queues[j], s.workers[j].busy, s.shared, p, j, n, choice).value;
    OuterKeepsHolding(s.others[p], s.queues, s.workers[j].busy, s.shared, p, n, choice, m);
    var s' := OuterStep(s, p, choice).value;
    forall k | 0 <= k < n ensures HolderHolds(s', k) {
      assert HolderHolds(s, k);
    }
  }

  lemma EnterStepHolds(s: State, p: nat, call: Call)
    requires Sized(s) && HoldersHold(s) && p < |s.others| && EnterStep(s, p, call).Some?
    ensures HoldersHold(EnterStep(s, p, call).value)
  {
    var s' := EnterStep(s, p, call).value;
    forall k | 0 <= k < |s.queues| ensures HolderHolds(s', k) {
      assert HolderHolds(s, k);
    }
  }

  lemma StepHolds(s: State, step: Step)
    requires LocksFit(s) && HoldersHold(s) && Next(s, step).Some?
    ensures HoldersHold(Next(s, step).value)
  {
    hide WorkerStep, OuterStep, EnterStep, HoldersHold;
    match step
    case OfWorker(i, choice) => WorkerStepHolds(s, i, choice);
    case OfOther(p, choice) => OuterStepHolds(s, p, choice);
    case Enter(p, call) => EnterStepHolds(s, p, call);
  }

  lemma {:induction false} RunHolds(s: State, steps: seq<Step>)
    requires Sized(s) && LocksFit(s) && HoldersHold(s) && Run(s, steps).Some?
    ensures HoldersHold(Run(s, steps).value)
    decreases |steps|
  {
    hide Next, LocksFit, HoldersHold;
    if steps != [] {
      StepFits(s, steps[0]);
      StepHolds(s, steps[0]);
      RunHolds(Next(s, steps[0]).value, steps[1..]);
    }
  }

  lemma ReachableHolds(s: State)
    requires Reachable(s)
    ensures HoldersHold(s)
  {
    var n: nat, outside: nat, steps :| n > 0 && Run(Init(n, outside), steps) == Some(s);
    InitFits(n, outside);
    hide Run;
    RunHolds(Init(n, outside), steps);
  }

  /** The thread can make a step, when the locks it tries are not refused without reason. */
  predicate CanStep(s: State, agent: Agent)
    requires Sized(s)
  {
    match agent
    case Pool(i) => Next(s, OfWorker(i, true)).Some?
    case Outside(p) => Next(s, OfOther(p, true)).Some?
  }

  /** A thread that cannot step waits for a mutex that another thread holds. */
  ghost predicate WaitsFor(s: State, agent: Agent, holder: Agent)
    requires Sized(s)
  {
    match agent
    case Pool(i) => i < |s.workers| && s.workers[i].pc.Own? && s.queues[i].holder == Some(holder)
    case Outside(p) =>
      && p < |s.others|
      && (((s.others[p].LockWait? || s.others[p].AwaitOther?) && holder.Outside? && s.shared.waitHolder == Some(holder.p))
          || ((s.others[p].LastLock? || s.others[p].StopLock?)
              && OuterTarget(s.others[p], |s.queues|) < |s.queues|
              && s.queues[OuterTarget(s.others[p], |s.queues|)].holder == Some(holder)))
  }

  lemma WorkerSteps(s: State, i: nat)
    requires Reachable(s) && Sized(s) && i < |s.workers|
    ensures CanStep(s, Pool(i)) || s.workers[i].pc.Exited? || exists holder :: WaitsFor(s, Pool(i), holder)
  {
    WorkersAreSound(s, i);
    ReachableFits(s);
    assert WorkerFits(s.workers[i], i, s.queues, s.shared.stopped);
    if s.workers[i].pc.Own? && s.queues[i].holder.Some? {
      assert WaitsFor(s, Pool(i), s.queues[i].holder.value);
    }
  }

  /** What keeps a thread outside from a step. */
  lemma OuterMoveMissing(pc: OuterPc, queue: Queue, busy: bool, sh: Shared, p: nat, j: nat, n: nat)
    requires MoveOuter(pc, queue, busy, sh, p, j, n, true).None?
    ensures pc.Idle? || ((pc.LockWait? || pc.AwaitOther?) && sh.waitHolder.Some?)
         || ((pc.LastLock? || pc.StopLock?) && queue.holder.Some?)
  {
  }

  lemma OuterSteps(s: State, p: nat)
    requires Reachable(s) && Sized(s) && p < |s.others|
    ensures CanStep(s, Outside(p)) || s.others[p].Idle? || exists holder :: WaitsFor(s, Outside(p), holder)
  {
    OuterReaches(s, p);
    hide Reachable, MoveOuter, OuterTarget;
    var j := OuterTarget(s.others[p], |s.queues|);
    if !CanStep(s, Outside(p)) {
      OuterMoveMissing(s.others[p], s.queues[j], s.workers[j].busy, s.shared, p, j, |s.queues|);
      if (s.others[p].LockWait? || s.others[p].AwaitOther?) && s.shared.waitHolder.Some? {
        assert WaitsFor(s, Outside(p), Outside(s.shared.waitHolder.value));
      } else if !s.others[p].Idle? {
        assert WaitsFor(s, Outside(p), s.queues[j].holder.value);
      }
    }
  }

  lemma OuterReaches(s: State, p: nat)
    requires Reachable(s) && Sized(s) && p < |s.others|
    ensures OuterTarget(s.others[p], |s.queues|) < |s.queues|
  {
    ReachableFits(s);
    assert OuterFits(s.others[p], p, s.queues, s.shared.stopped);
    OuterTargetInside(s.others[p], p, s.queues, s.shared.stopped);
  }

  lemma OuterTargetInside(pc: OuterPc, p: nat, queues: seq<Queue>, stopped: bool)
    requires |queues| > 0 && OuterFits(pc, p, queues, stopped)
    ensures OuterTarget(pc, |queues|) < |queues|
  {
  }

  /** Whoever holds a mutex that another thread waits for can make a step. */
  lemma HoldersStep(s: State, agent: Agent, holder: Agent)
    requires Reachable(s) && Sized(s) && WaitsFor(s, agent, holder)
    ensures CanStep(s, holder)
  {
    ReachableFits(s);
    ReachableHolds(s);
    if holder.Outside? && s.shared.waitHolder == Some(holder.p) {
      assert holder.p < |s.others| && HoldsGate(s.others[holder.p]);
      GateHolderSteps(s, holder.p);
    } else {
      var j := if agent.Pool? then agent.i else OuterTarget(s.others[agent.p], |s.queues|);
      assert HolderHolds(s, j);
      QueueHolderSteps(s, j, holder);
    }
  }

  lemma GateHolderSteps(s: State, p: nat)
    requires Reachable(s) && Sized(s) && p < |s.others| && HoldsGate(s.others[p])
    ensures CanStep(s, Outside(p))
  {
    OuterReaches(s, p);
    hide Reachable, MoveOuter, OuterTarget;
    var j := OuterTarget(s.others[p], |s.queues|);
    if !CanStep(s, Outside(p)) {
      OuterMoveMissing(s.others[p], s.queues[j], s.workers[j].busy, s.shared, p, j, |s.queues|);
    }
  }

  lemma QueueHolderSteps(s: State, j: nat, holder: Agent)
    requires Reachable(s) && Sized(s) && j < |s.queues| && s.queues[j].holder == Some(holder) && HolderHolds(s, j)
    ensures CanStep(s, holder)
  {
    match holder
    case Pool(i) =>
      WorkersAreSound(s, i);
    case Outside(p) =>
  }

  /**
    * There is no deadlock: every thread that is not idle or has not exited can make a step, or waits for a mutex whose
    * holder can make one.
    */
  lemma NoDeadlock(s: State, agent: Agent)
    requires Reachable(s) && Sized(s)
    requires match agent
             case Pool(i) => i < |s.workers| && !s.workers[i].pc.Exited?
             case Outside(p) => p < |s.others| && !s.others[p].Idle?
    ensures CanStep(s, agent) || exists holder :: WaitsFor(s, agent, holder) && CanStep(s, holder)
  {
    hide Reachable, CanStep, WaitsFor;
    if !CanStep(s, agent) {
      if agent.Pool? {
        WorkerSteps(s, agent.i);
      } else {
        OuterSteps(s, agent.p);
      }
      assert agent == if agent.Pool? then Pool(agent.i) else Outside(agent.p);
      var holder :| WaitsFor(s, agent, holder);
      HoldersStep(s, agent, holder);
    }
  }
}
