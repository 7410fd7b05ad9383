/** What the locks, the moved-from slots and the busy flags of the executor mean in every reachable state. */
module ExecutorLocks {
  import opened Options
  import opened Executor

  // ---------------------------------------------------------------- the invariant

  /** The queue a worker has locked. */
  function WorkerLock(pc: WorkerPc): Option<nat> {
    match pc
    case Locked(j, _) => Some(j)
    case Took(j, _) => Some(j)
    case Marked(j, _) => Some(j)
    case Popped(j, _) => Some(j)
    case _ => None
  }

  function OuterLock(pc: OuterPc): Option<nat> {
    match pc
    case Emplace(_, j) => Some(j)
    case Unlock(j) => Some(j)
    case StopHeld(k) => Some(k)
    case _ => None
  }

  /** The worker has moved the front task out of the queue it has locked, and not popped it yet. */
  predicate Emptying(pc: WorkerPc) { pc.Took? || pc.Marked? }

  /** Between setting the busy flag and resetting it with a task in hand. */
  predicate MustBeBusy(pc: WorkerPc) {
    pc.Marked? || pc.Popped? || (pc.Got? && pc.task.Some?) || pc.Running? || pc.Ran?
  }

  predicate Holds(queues: seq<Queue>, lock: Option<nat>, agent: Agent) {
    lock.Some? ==> lock.value < |queues| && queues[lock.value].holder == Some(agent)
  }

  /** The locks a worker thinks it holds are its own; its flag is up; it never runs an empty task. */
  predicate WorkerFits(w: Worker, i: nat, queues: seq<Queue>, stopped: bool) {
    && Holds(queues, WorkerLock(w.pc), Pool(i))
    && (MustBeBusy(w.pc) ==> w.busy)
    && (w.pc == Got(None) ==> stopped) && w.pc != Running(None)
    && (Emptying(w.pc) ==> FrontIsMoved(queues[w.pc.j]))
  }

  predicate FrontIsMoved(queue: Queue) { queue.q != [] && queue.q[0] == None }

  predicate OuterFits(pc: OuterPc, p: nat, queues: seq<Queue>, stopped: bool) {
    Holds(queues, OuterLock(pc), Outside(p)) && (pc.StopLock? || pc.StopHeld? ==> stopped)
  }

  /** Only the front of a queue can be moved-from, and only while the worker that took it holds the lock. */
  predicate QueueFits(queue: Queue, j: nat, workers: seq<Worker>, stopped: bool) {
    && (queue.done ==> stopped)
    && (forall k | 0 <= k < |queue.q| && queue.q[k].None? :: k == 0 && TakenBy(queue.holder, j, workers))
  }

  predicate TakenBy(holder: Option<Agent>, j: nat, workers: seq<Worker>) {
    && holder.Some? && holder.value.Pool? && holder.value.i < |workers|
    && Emptying(workers[holder.value.i].pc) && workers[holder.value.i].pc.j == j
  }

  predicate LocksFit(s: State)
    ensures LocksFit(s) ==> Sized(s)
  {
    && Sized(s)
    && (forall i | 0 <= i < |s.workers| :: WorkerFits(s.workers[i], i, s.queues, s.shared.stopped))
    && (forall p | 0 <= p < |s.others| :: OuterFits(s.others[p], p, s.queues, s.shared.stopped))
    && (forall j | 0 <= j < |s.queues| :: QueueFits(s.queues[j], j, s.workers, s.shared.stopped))
  }

  // ---------------------------------------------------------------- one move

  /** A step changes a queue only when it is free or locked by the thread that makes the step. */
  predicate MayTouch(queue: Queue, queue': Queue, agent: Agent) {
    queue' == queue || queue.holder == None || queue.holder == Some(agent)
  }

  /** What one step of worker `i` does to itself and to its target. */
  lemma WorkerMoveFits(w: Worker, queues: seq<Queue>, stopped: bool, i: nat, n: nat, choice: bool, m: WorkerMove)
    requires i < n == |queues| && WorkerFits(w, i, queues, stopped)
    requires var j := WorkerTarget(w.pc, i, n);
             && j < n && MoveWorker(w, queues[j], stopped, i, j, n, choice) == Some(m)
             && (queues[j].done ==> stopped)
    ensures var j := WorkerTarget(w.pc, i, n);
            && MayTouch(queues[j], m.queue, Pool(i)) && m.queue.done == queues[j].done
            && WorkerFits(m.worker, i, queues[j := m.queue], stopped)
  {
  }

  /** The moved-from front appears when the worker takes it and disappears when it pops. */
  lemma WorkerMoveSlots(w: Worker, workers: seq<Worker>, queues: seq<Queue>, stopped: bool, i: nat, n: nat, choice: bool, m: WorkerMove)
    requires i < n == |queues| == |workers| && workers[i] == w && WorkerFits(w, i, queues, stopped)
    requires var j := WorkerTarget(w.pc, i, n);
             && j < n && MoveWorker(w, queues[j], stopped, i, j, n, choice) == Some(m)
             && QueueFits(queues[j], j, workers, stopped)
    ensures QueueFits(m.queue, WorkerTarget(w.pc, i, n), workers[i := m.worker], stopped)
  {
  }

  lemma OuterMoveFits(pc: OuterPc, workers: seq<Worker>, queues: seq<Queue>, sh: Shared, p: nat, n: nat, choice: bool, m: OuterMove)
    requires 0 < n == |queues| == |workers| && OuterFits(pc, p, queues, sh.stopped)
    requires var j := OuterTarget(pc, n);
             && j < n && MoveOuter(pc, queues[j], workers[j].busy, sh, p, j, n, choice) == Some(m)
             && QueueFits(queues[j], j, workers, sh.stopped)
    ensures var j := OuterTarget(pc, n);
            && MayTouch(queues[j], m.queue, Outside(p)) && (sh.stopped ==> m.shared.stopped)
            && OuterFits(m.pc, p, queues[j := m.queue], m.shared.stopped)
            && QueueFits(m.queue, j, workers, m.shared.stopped)
  {
    var j := OuterTarget(pc, n);
    assert !pc.Unlock? && !pc.StopHeld? ==> m.queue.holder == queues[j].holder || queues[j].holder == None;
  }

  // ---------------------------------------------------------------- the other threads

  /** What a thread knows about its lock stays true when another one makes a step. */
  lemma OtherWorkerFits(w: Worker, i: nat, queues: seq<Queue>, j: nat, queue': Queue, agent: Agent, stopped: bool, stopped': bool)
    requires WorkerFits(w, i, queues, stopped) && j < |queues| && agent != Pool(i)
    requires MayTouch(queues[j], queue', agent) && (stopped ==> stopped')
    ensures WorkerFits(w, i, queues[j := queue'], stopped')
  {
  }

  lemma OtherOuterFits(pc: OuterPc, p: nat, queues: seq<Queue>, j: nat, queue': Queue, agent: Agent, stopped: bool, stopped': bool)
    requires OuterFits(pc, p, queues, stopped) && j < |queues| && agent != Outside(p)
    requires MayTouch(queues[j], queue', agent) && (stopped ==> stopped')
    ensures OuterFits(pc, p, queues[j := queue'], stopped')
  {
  }

  lemma OtherQueueFits(queue: Queue, j: nat, workers: seq<Worker>, i: nat, w': Worker, stopped: bool, stopped': bool)
    requires QueueFits(queue, j, workers, stopped) && i < |workers| && (stopped ==> stopped')
    requires queue.holder == Some(Pool(i)) && Emptying(workers[i].pc) && workers[i].pc.j == j ==> w' == workers[i]
    ensures QueueFits(queue, j, workers[i := w'], stopped')
  {
  }

  lemma WorkerStepFits(s: State, i: nat, choice: bool)
    requires LocksFit(s) && i < |s.workers| && WorkerStep(s, i, choice).Some?
    ensures LocksFit(WorkerStep(s, i, choice).value)
  {
    hide WorkerFits, OuterFits, QueueFits, MoveWorker, Record, MayTouch;
    var n := |s.workers|;
    var j := WorkerTarget(s.workers[i].pc, i, n);
    var m := MoveWorker(s.workers[i], s.queues[j], s.shared.stopped, i, j, n, choice).value;
    assert (s.queues[j].done ==> s.shared.stopped) by { DoneIsStopped(s.queues[j], j, s.workers, s.shared.stopped); }
    WorkerMoveFits(s.workers[i], s.queues, s.shared.stopped, i, n, choice, m);
    WorkerMoveSlots(s.workers[i], s.workers, s.queues, s.shared.stopped, i, n, choice, m);
    forall k | 0 <= k < n && k != i ensures WorkerFits(s.workers[k], k, s.queues[j := m.queue], s.shared.stopped) {
      OtherWorkerFits(s.workers[k], k, s.queues, j, m.queue, Pool(i), s.shared.stopped, s.shared.stopped);
    }
    forall p | 0 <= p < |s.others| ensures OuterFits(s.others[p], p, s.queues[j := m.queue], s.shared.stopped) {
      OtherOuterFits(s.others[p], p, s.queues, j, m.queue, Pool(i), s.shared.stopped, s.shared.stopped);
    }
    forall k | 0 <= k < n && k != j ensures QueueFits(s.queues[k], k, s.workers[i := m.worker], s.shared.stopped) {
      EmptyingIsTarget(s.workers[i].pc, i, n);
      OtherQueueFits(s.queues[k], k, s.workers, i, m.worker, s.shared.stopped, s.shared.stopped);
    }
  }

  lemma DoneIsStopped(queue: Queue, j: nat, workers: seq<Worker>, stopped: bool)
    requires QueueFits(queue, j, workers, stopped)
    ensures queue.done ==> stopped
  {
  }

  lemma EmptyingIsTarget(pc: WorkerPc, i: nat, n: nat)
    requires i < n
    ensures Emptying(pc) ==> WorkerTarget(pc, i, n) == pc.j
  {
  }

  lemma OuterStepFits(s: State, p: nat, choice: bool)
    requires LocksFit(s) && p < |s.others| && OuterStep(s, p, choice).Some?
    ensures LocksFit(OuterStep(s, p, choice).value)
  {
    hide WorkerFits, OuterFits, QueueFits, MoveOuter, Record, MayTouch;
    var n := |s.workers|;
    var j := OuterTarget(s.others[p], n);
    var m := MoveOuter(s.others[p], s.queues[j], s.workers[j].busy, s.shared, p, j, n, choice).value;
    OuterMoveFits(s.others[p], s.workers, s.queues, s.shared, p, n, choice, m);
    forall k | 0 <= k < n ensures WorkerFits(s.workers[k], k, s.queues[j := m.queue], m.shared.stopped) {
      OtherWorkerFits(s.workers[k], k, s.queues, j, m.queue, Outside(p), s.shared.stopped, m.shared.stopped);
    }
    forall k | 0 <= k < |s.others| && k != p ensures OuterFits(s.others[k], k, s.queues[j := m.queue], m.shared.stopped) {
      OtherOuterFits(s.others[k], k, s.queues, j, m.queue, Outside(p), s.shared.stopped, m.shared.stopped);
    }
    forall k | 0 <= k < n && k != j ensures QueueFits(s.queues[k], k, s.workers, m.shared.stopped) {
      assert s.workers[0 := s.workers[0]] == s.workers;
      OtherQueueFits(s.queues[k], k, s.workers, 0, s.workers[0], s.shared.stopped, m.shared.stopped);
    }
  }

  lemma StepFits(s: State, step: Step)
    requires LocksFit(s) && Next(s, step).Some?
    ensures LocksFit(Next(s, step).value)
  {
    hide WorkerStep, OuterStep, WorkerFits, QueueFits;
    match step
    case OfWorker(i, choice) => WorkerStepFits(s, i, choice);
    case OfOther(p, choice) => OuterStepFits(s, p, choice);
    case Enter(_, _) =>
  }
}
