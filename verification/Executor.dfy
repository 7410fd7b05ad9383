/**
  * The thread pool as an interleaved step system. Each worker thread and each thread outside the pool has a program
  * counter; one step reads or writes one shared variable. Reads see the latest writes.
  */
module Executor {
  import opened Options

  type Task = nat

  // ---------------------------------------------------------------- states

  datatype Agent = Pool(i: nat) | Outside(p: nat)

  /** A queue with its mutex. A moved-from task at the front is `None` until it is popped. */
  datatype Queue = Queue(q: seq<Option<Task>>, done: bool, holder: Option<Agent>)

  /** `try_pop` in round `k` of the stealing loop, or `pop` of the worker's own queue. */
  datatype Attempt = Stealing(k: nat) | Waiting

  datatype WorkerPc =
    | Check                             // while (!stopped_)
    | Spin(k: nat)                      // about to try the lock of queue (i + k) % n
    | Own                               // about to lock the own queue
    | Locked(j: nat, attempt: Attempt)  // holds queue j
    | Took(j: nat, t: Task)             // t = std::move(q.front()) is done
    | Marked(j: nat, t: Task)           // busy = true is done
    | Popped(j: nat, t: Task)           // q.pop_front() is done
    | Got(task: Option<Task>)           // before the double check of stopped_
    | Running(task: Option<Task>)
    | Ran                               // before busy = false
    | Exited

  datatype Worker = Worker(pc: WorkerPc, busy: bool)

  datatype WaitStatus = Open | AllowIncoming | BlockIncoming | RejectIncoming

  /** A thread outside the pool is idle or inside one call. */
  datatype OuterPc =
    | Idle
    // push
    | ReadReject(t: Task)
    | ReadBlock(t: Task)
    | LockWait(t: Task)
    | HoldWait(t: Task)
    | TakeIndex(t: Task)
    | TryRound(t: Task, start: nat, k: nat)
    | TryLock(t: Task, start: nat, k: nat)
    | LastPush(t: Task, start: nat)
    | LastLock(t: Task, start: nat)
    | Emplace(t: Task, j: nat)
    | Unlock(j: nat)
    // stop
    | RaiseFlag
    | StopLock(k: nat)
    | StopHeld(k: nat)
    // wait; `goal` remembers the tasks enqueued before the call
    | TryWait(status: WaitStatus, goal: set<Task>)
    | AwaitOther
    | OtherDone
    | SetStatus(status: WaitStatus, goal: set<Task>)
    | ScanQueue(k: nat, status: WaitStatus, goal: set<Task>)
    | QueueFull(k: nat, status: WaitStatus, goal: set<Task>)
    | ScanBusy(k: nat, status: WaitStatus, goal: set<Task>)
    | WorkerBusy(k: nat, status: WaitStatus, goal: set<Task>)
    | ResetStatus(status: WaitStatus, goal: set<Task>)
    | LeaveWait(goal: set<Task>)
    | Returned(goal: set<Task>)

  /** The other fields of the executor: `stopped_`, `waiting_`, the owner of `m_wait`, and `index`. */
  datatype Shared = Shared(stopped: bool, waiting: WaitStatus, waitHolder: Option<nat>, index: nat)

  /** What a step means for a task. */
  datatype Event =
    | Quiet
    | Submits(t: Task) | Rejects(t: Task) | Drops(t: Task)
    | Emplaces(t: Task, j: nat) | Takes(t: Task) | Calls(t: Task) | Finishes(t: Task)

  /** Where a task is. */
  datatype Place = Pushing(p: nat) | Queued(j: nat) | Held(i: nat) | Finished | Dropped | Rejected

  /** What has happened: `place` follows each task ever submitted, `calls` lists the tasks called, in order. */
  datatype History = History(
    enqueued: set<Task>, calls: seq<Task>, finished: set<Task>, dropped: set<Task>, rejected: set<Task>,
    place: map<Task, Place>)

  datatype State = State(workers: seq<Worker>, queues: seq<Queue>, others: seq<OuterPc>, shared: Shared, history: History)

  /** One queue for each of at least one worker. */
  predicate Sized(s: State) { |s.queues| == |s.workers| > 0 }

  function Init(n: nat, outside: nat): (s: State)
    ensures |s.workers| == |s.queues| == n && |s.others| == outside
    ensures forall i | 0 <= i < n :: s.workers[i] == Worker(Check, false) && s.queues[i] == Queue([], false, None)
    ensures forall p | 0 <= p < outside :: s.others[p] == Idle
  {
    State(seq(n, _ => Worker(Check, false)), seq(n, _ => Queue([], false, None)), seq(outside, _ => Idle),
          Shared(false, Open, None, 0), History({}, [], {}, {}, {}, map[]))
  }

  // ---------------------------------------------------------------- steps of a worker

  /** The queue the next step of worker `i` of `n` is about. */
  function WorkerTarget(pc: WorkerPc, i: nat, n: nat): nat
    requires i < n
  {
    match pc
    case Spin(k) => (i + k) % n
    case Locked(j, _) => j
    case Took(j, _) => j
    case Marked(j, _) => j
    case Popped(j, _) => j
    case _ => i
  }

  datatype WorkerMove = WorkerMove(worker: Worker, queue: Queue, event: Event)

  /**
    * The next step of worker `i` of `n`, if it has one: what becomes of the worker and of queue `j`, its target. Trying a lock may
    * fail even when it is free (`choice`). Waiting on the condition variable releases the lock, and may end at any time.
    */
  function MoveWorker(w: Worker, queue: Queue, stopped: bool, i: nat, j: nat, n: nat, choice: bool): Option<WorkerMove> {
    match w.pc
    case Check => Some(WorkerMove(w.(pc := if stopped then Exited else Spin(0)), queue, Quiet))
    case Spin(k) =>
      if k >= 4 * n then Some(WorkerMove(w.(pc := Own), queue, Quiet))
      else if choice && queue.holder.None? then
        Some(WorkerMove(w.(pc := Locked(j, Stealing(k))), queue.(holder := Some(Pool(i))), Quiet))
      else
        Some(WorkerMove(w.(pc := Spin(k + 1)), queue, Quiet))
    case Own =>
      if queue.holder.None? then Some(WorkerMove(w.(pc := Locked(j, Waiting)), queue.(holder := Some(Pool(i))), Quiet))
      else None
    case Locked(_, attempt) =>
      if attempt.Waiting? && queue.q == [] && !queue.done then
        Some(WorkerMove(w.(pc := Own), queue.(holder := None), Quiet))
      else if queue.q == [] || queue.done then
        Some(WorkerMove(w.(pc := if attempt.Waiting? then Got(None) else Spin(attempt.k + 1)), queue.(holder := None), Quiet))
      else
        (match queue.q[0]
         case None => None
         case Some(t) => Some(WorkerMove(w.(pc := Took(j, t)), queue.(q := queue.q[0 := None]), Takes(t))))
    case Took(_, t) => Some(WorkerMove(Worker(Marked(j, t), true), queue, Quiet))
    case Marked(_, t) =>
      if queue.q == [] then None else Some(WorkerMove(w.(pc := Popped(j, t)), queue.(q := queue.q[1..]), Quiet))
    case Popped(_, t) => Some(WorkerMove(w.(pc := Got(Some(t))), queue.(holder := None), Quiet))
    case Got(task) =>
      if stopped then Some(WorkerMove(w.(pc := Exited), queue, if task.Some? then Drops(task.value) else Quiet))
      else Some(WorkerMove(w.(pc := Running(task)), queue, if task.Some? then Calls(task.value) else Quiet))
    case Running(task) => if task.Some? then Some(WorkerMove(w.(pc := Ran), queue, Finishes(task.value))) else None
    case Ran => Some(WorkerMove(Worker(Check, false), queue, Quiet))
    case Exited => None
  }

  // ---------------------------------------------------------------- steps of other threads

  /** The queue, or the worker, the next step of an outside thread is about. */
  function OuterTarget(pc: OuterPc, n: nat): nat
    requires n > 0
  {
    match pc
    case TryRound(_, start, k) => (start + k) % n
    case TryLock(_, start, k) => (start + k) % n
    case LastPush(_, start) => start % n
    case LastLock(_, start) => start % n
    case Emplace(_, j) => j
    case Unlock(j) => j
    case StopLock(k) => if k < n then k else 0
    case StopHeld(k) => k
    case ScanQueue(k, _, _) => if k < n then k else 0
    case ScanBusy(k, _, _) => if k < n then k else 0
    case _ => 0
  }

  datatype OuterMove = OuterMove(pc: OuterPc, queue: Queue, shared: Shared, event: Event)

  function Goes(pc: OuterPc, queue: Queue, sh: Shared): Option<OuterMove> { Some(OuterMove(pc, queue, sh, Quiet)) }

  /** The next step of the outside thread `p`, if it has one; `j` is its target and `busy` the flag of worker `j`. */
  function MoveOuter(pc: OuterPc, queue: Queue, busy: bool, sh: Shared, p: nat, j: nat, n: nat, choice: bool): Option<OuterMove> {
    match pc
    case Idle => None
    case ReadReject(t) =>
      if sh.waiting == RejectIncoming then Some(OuterMove(Idle, queue, sh, Rejects(t))) else Goes(ReadBlock(t), queue, sh)
    case ReadBlock(t) => Goes(if sh.waiting == BlockIncoming then LockWait(t) else TakeIndex(t), queue, sh)
    case LockWait(t) => if sh.waitHolder.None? then Goes(HoldWait(t), queue, sh.(waitHolder := Some(p))) else None
    case HoldWait(t) => Goes(if sh.waiting == Open then TakeIndex(t) else LockWait(t), queue, sh.(waitHolder := None))
    case TakeIndex(t) => Goes(TryRound(t, sh.index, 0), queue, sh.(index := sh.index + 1))
    case TryRound(t, start, k) =>
      if k >= n then Goes(LastPush(t, start), queue, sh)
      else Goes(if queue.done then TryRound(t, start, k + 1) else TryLock(t, start, k), queue, sh)
    case TryLock(t, start, k) =>
      if choice && queue.holder.None? then Goes(Emplace(t, j), queue.(holder := Some(Outside(p))), sh)
      else Goes(TryRound(t, start, k + 1), queue, sh)
    case LastPush(t, start) =>
      if queue.done then Some(OuterMove(Idle, queue, sh, Drops(t))) else Goes(LastLock(t, start), queue, sh)
    case LastLock(t, start) =>
      if queue.holder.None? then Goes(Emplace(t, j), queue.(holder := Some(Outside(p))), sh) else None
    case Emplace(t, _) => Some(OuterMove(Unlock(j), queue.(q := queue.q + [Some(t)]), sh, Emplaces(t, j)))
    case Unlock(_) => Goes(Idle, queue.(holder := None), sh)
    case RaiseFlag => Goes(StopLock(0), queue, sh.(stopped := true))
    case StopLock(k) =>
      if k >= n then Goes(Idle, queue, sh)
      else if queue.holder.None? then Goes(StopHeld(k), queue.(holder := Some(Outside(p))), sh) else None
    case StopHeld(k) => Goes(StopLock(k + 1), queue.(done := true, holder := None), sh)
    case TryWait(status, goal) =>
      if choice && sh.waitHolder.None? then Goes(SetStatus(status, goal), queue, sh.(waitHolder := Some(p)))
      else Goes(AwaitOther, queue, sh)
    case AwaitOther => if sh.waitHolder.None? then Goes(OtherDone, queue, sh.(waitHolder := Some(p))) else None
    case OtherDone => Goes(Idle, queue, sh.(waitHolder := None))
    case SetStatus(status, goal) => Goes(ScanQueue(0, status, goal), queue, sh.(waiting := status))
    case ScanQueue(k, status, goal) =>
      if k >= n then Goes(ScanBusy(0, status, goal), queue, sh)
      else Goes(if queue.q == [] then ScanQueue(k + 1, status, goal) else QueueFull(k, status, goal), queue, sh)
    case QueueFull(k, status, goal) => Goes(ScanQueue(if sh.stopped then k + 1 else k, status, goal), queue, sh)
    case ScanBusy(k, status, goal) =>
      if k >= n then Goes(ResetStatus(status, goal), queue, sh)
      else Goes(if busy then WorkerBusy(k, status, goal) else ScanBusy(k + 1, status, goal), queue, sh)
    case WorkerBusy(k, status, goal) => Goes(ScanBusy(if sh.stopped then k + 1 else k, status, goal), queue, sh)
    case ResetStatus(status, goal) => Goes(LeaveWait(goal), queue, sh.(waiting := Open))
    case LeaveWait(goal) => Goes(Returned(goal), queue, sh.(waitHolder := None))
    case Returned(_) => Goes(Idle, queue, sh)
  }

  datatype Call = Push(t: Task) | Stop | Wait(status: WaitStatus)

  /** An idle outside thread enters a call; each task submitted is a new one. */
  function Enters(pc: OuterPc, call: Call, h: History): Option<(OuterPc, Event)> {
    if pc != Idle then None
    else
      match call
      case Push(t) => if t in h.place then None else Some((ReadReject(t), Submits(t)))
      case Stop => Some((RaiseFlag, Quiet))
      case Wait(status) => Some((TryWait(status, h.enqueued), Quiet))
  }

  // ---------------------------------------------------------------- steps of the whole

  function Record(h: History, agent: Agent, event: Event): History {
    match event
    case Quiet => h
    case Submits(t) => h.(place := h.place[t := if agent.Outside? then Pushing(agent.p) else Held(agent.i)])
    case Rejects(t) => h.(place := h.place[t := Rejected], rejected := h.rejected + {t})
    case Drops(t) => h.(place := h.place[t := Dropped], dropped := h.dropped + {t})
    case Emplaces(t, j) => h.(place := h.place[t := Queued(j)], enqueued := h.enqueued + {t})
    case Takes(t) => h.(place := h.place[t := if agent.Outside? then Pushing(agent.p) else Held(agent.i)])
    case Calls(t) => h.(calls := h.calls + [t])
    case Finishes(t) => h.(place := h.place[t := Finished], finished := h.finished + {t})
  }

  datatype Step = OfWorker(i: nat, choice: bool) | OfOther(p: nat, choice: bool) | Enter(p: nat, call: Call)

  function WorkerStep(s: State, i: nat, choice: bool): Option<State>
    requires Sized(s) && i < |s.workers|
  {
    var j := WorkerTarget(s.workers[i].pc, i, |s.workers|);
    if j >= |s.queues| then None
    else
      match MoveWorker(s.workers[i], s.queues[j], s.shared.stopped, i, j, |s.workers|, choice)
      case None => None
      case Some(m) => Some(s.(workers := s.workers[i := m.worker], queues := s.queues[j := m.queue],
                              history := Record(s.history, Pool(i), m.event)))
  }

  function OuterStep(s: State, p: nat, choice: bool): Option<State>
    requires Sized(s) && p < |s.others|
  {
    var j := OuterTarget(s.others[p], |s.queues|);
    if j >= |s.queues| then None
    else
      match MoveOuter(s.others[p], s.queues[j], s.workers[j].busy, s.shared, p, j, |s.queues|, choice)
      case None => None
      case Some(m) => Some(s.(others := s.others[p := m.pc], queues := s.queues[j := m.queue], shared := m.shared,
                              history := Record(s.history, Outside(p), m.event)))
  }

  function EnterStep(s: State, p: nat, call: Call): Option<State>
    requires p < |s.others|
  {
    match Enters(s.others[p], call, s.history)
    case None => None
    case Some((pc, event)) => Some(s.(others := s.others[p := pc], history := Record(s.history, Outside(p), event)))
  }

  /** The state after a step, if the step is possible. */
  function Next(s: State, step: Step): (r: Option<State>)
    requires Sized(s)
    ensures r.Some? ==> Sized(r.value) && |r.value.workers| == |s.workers| && |r.value.others| == |s.others|
  {
    match step
    case OfWorker(i, choice) => if i < |s.workers| then WorkerStep(s, i, choice) else None
    case OfOther(p, choice) => if p < |s.others| then OuterStep(s, p, choice) else None
    case Enter(p, call) => if p < |s.others| then EnterStep(s, p, call) else None
  }

  /** Any interleaving of steps. */
  function Run(s: State, steps: seq<Step>): (r: Option<State>)
    requires Sized(s)
    ensures r.Some? ==> Sized(r.value)
    decreases |steps|
  {
    if steps == [] then Some(s)
    else
      match Next(s, steps[0])
      case None => None
      case Some(s') => Run(s', steps[1..])
  }

  /** `s` is a state of an executor with at least one worker thread. */
  ghost predicate Reachable(s: State) {
    exists n: nat, outside: nat, steps: seq<Step> :: n > 0 && Run(Init(n, outside), steps) == Some(s)
  }
}
