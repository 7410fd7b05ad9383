/** Where the tasks of the executor are: each one is in exactly one place, and is called at most once. */
module ExecutorTasks {
  import opened Options
  import opened Executor
  import opened ExecutorLocks

  // ---------------------------------------------------------------- places

  function WorkerHand(pc: WorkerPc): Option<Task> {
    match pc
    case Took(_, t) => Some(t)
    case Marked(_, t) => Some(t)
    case Popped(_, t) => Some(t)
    case Got(task) => task
    case Running(task) => task
    case _ => None
  }

  function OuterHand(pc: OuterPc): Option<Task> {
    match pc
    case ReadReject(t) => Some(t)
    case ReadBlock(t) => Some(t)
    case LockWait(t) => Some(t)
    case HoldWait(t) => Some(t)
    case TakeIndex(t) => Some(t)
    case TryRound(t, _, _) => Some(t)
    case TryLock(t, _, _) => Some(t)
    case LastPush(t, _) => Some(t)
    case LastLock(t, _) => Some(t)
    case Emplace(t, _) => Some(t)
    case _ => None
  }

  /** The task a thread has in hand. */
  function Hand(s: State, agent: Agent): Option<Task> {
    match agent
    case Pool(i) => if i < |s.workers| then WorkerHand(s.workers[i].pc) else None
    case Outside(p) => if p < |s.others| then OuterHand(s.others[p]) else None
  }

  predicate InQueue(s: State, j: nat, t: Task) { j < |s.queues| && Some(t) in s.queues[j].q }

  /** The task really is there. */
  predicate At(s: State, place: Place, t: Task) {
    match place
    case Pushing(p) => Hand(s, Outside(p)) == Some(t)
    case Queued(j) => InQueue(s, j, t)
    case Held(i) => Hand(s, Pool(i)) == Some(t)
    case Finished => t in s.history.finished
    case Dropped => t in s.history.dropped
    case Rejected => t in s.history.rejected
  }

  predicate Distinct(q: seq<Option<Task>>) {
    forall a, b | 0 <= a < b < |q| :: q[a].Some? ==> q[a] != q[b]
  }

  /** Every task is where the history says, and nowhere else. */
  ghost predicate PlacesFit(s: State) {
    && (forall place, t :: At(s, place, t) <==> t in s.history.place && s.history.place[t] == place)
    && (forall j | 0 <= j < |s.queues| :: Distinct(s.queues[j].q))
  }

  // ---------------------------------------------------------------- what an event does to a hand and a queue

  predicate HandChange(before: Option<Task>, after: Option<Task>, event: Event) {
    match event
    case Quiet => after == before
    case Submits(t) => before == None && after == Some(t)
    case Takes(t) => before == None && after == Some(t)
    case Calls(t) => before == Some(t) && after == Some(t)
    case Emplaces(t, _) => before == Some(t) && after == None
    case Rejects(t) => before == Some(t) && after == None
    case Drops(t) => before == Some(t) && after == None
    case Finishes(t) => before == Some(t) && after == None
  }

  predicate QueueChange(q: seq<Option<Task>>, q': seq<Option<Task>>, event: Event) {
    match event
    case Takes(t) => q != [] && q[0] == Some(t) && q' == q[0 := None]
    case Emplaces(t, _) => q' == q + [Some(t)]
    case _ => q' == q || (q != [] && q[0] == None && q' == q[1..])
  }

  lemma WorkerEvent(w: Worker, queues: seq<Queue>, stopped: bool, i: nat, n: nat, choice: bool, m: WorkerMove)
    requires i < n == |queues| && WorkerFits(w, i, queues, stopped)
    requires var j := WorkerTarget(w.pc, i, n);
             j < n && MoveWorker(w, queues[j], stopped, i, j, n, choice) == Some(m)
    ensures HandChange(WorkerHand(w.pc), WorkerHand(m.worker.pc), m.event)
    ensures QueueChange(queues[WorkerTarget(w.pc, i, n)].q, m.queue.q, m.event)
    ensures !m.event.Submits? && !m.event.Rejects? && !m.event.Emplaces?
  {
  }

  lemma OuterEvent(pc: OuterPc, queue: Queue, busy: bool, sh: Shared, p: nat, j: nat, n: nat, choice: bool, m: OuterMove)
    requires MoveOuter(pc, queue, busy, sh, p, j, n, choice) == Some(m)
    ensures HandChange(OuterHand(pc), OuterHand(m.pc), m.event) && QueueChange(queue.q, m.queue.q, m.event)
    ensures m.event.Quiet? || m.event.Rejects? || m.event.Drops? || m.event == Emplaces(OuterHand(pc).value, j)
  {
  }

  // ---------------------------------------------------------------- queues as sets of distinct tasks

  lemma TakenFromQueue(q: seq<Option<Task>>, t: Task)
    requires q != [] && q[0] == Some(t) && Distinct(q)
    ensures Distinct(q[0 := None]) && forall u: Task :: Some(u) in q[0 := None] <==> Some(u) in q && u != t
  {
    var q' := q[0 := None];
    forall u: Task ensures Some(u) in q' <==> Some(u) in q && u != t {
      if Some(u) in q && u != t {
        var k :| 0 <= k < |q| && q[k] == Some(u);
        assert q'[k] == Some(u);
      }
    }
  }

  lemma PutIntoQueue(q: seq<Option<Task>>, t: Task)
    requires Distinct(q) && Some(t) !in q
    ensures Distinct(q + [Some(t)]) && forall u: Task :: Some(u) in q + [Some(t)] <==> Some(u) in q || u == t
  {
  }

  lemma PoppedFromQueue(q: seq<Option<Task>>)
    requires q != [] && q[0] == None && Distinct(q)
    ensures Distinct(q[1..]) && forall u: Task :: Some(u) in q[1..] <==> Some(u) in q
  {
    assert q == [None] + q[1..];
  }

  // ---------------------------------------------------------------- one step of one thread

  function PlaceOf(agent: Agent): Place {
    match agent
    case Pool(i) => Held(i)
    case Outside(p) => Pushing(p)
  }

  /** A step of `agent` about queue `j`, seen from the tasks. */
  predicate TaskStep(s: State, s': State, agent: Agent, j: nat, event: Event) {
    && HandChange(Hand(s, agent), Hand(s', agent), event)
    && j < |s.queues| == |s'.queues| && s'.queues == s.queues[j := s'.queues[j]]
    && QueueChange(s.queues[j].q, s'.queues[j].q, event)
    && s'.history == Record(s.history, agent, event)
    && (event.Submits? ==> event.t !in s.history.place)
    && (event.Emplaces? ==> event.j == j)
  }

  ghost predicate OthersKeepHands(s: State, s': State, agent: Agent) {
    forall other | other != agent :: Hand(s', other) == Hand(s, other)
  }

  ghost predicate QueueHas(s: State, s': State, j: nat, event: Event)
    requires j < |s.queues| == |s'.queues|
  {
    forall t: Task :: Some(t) in s'.queues[j].q <==>
      if event == Takes(t) then false else if event == Emplaces(t, j) then true else Some(t) in s.queues[j].q
  }

  lemma QueueAfter(s: State, s': State, agent: Agent, j: nat, event: Event)
    requires PlacesFit(s) && TaskStep(s, s', agent, j, event)
    ensures Distinct(s'.queues[j].q) && QueueHas(s, s', j, event)
  {
    var q, q' := s.queues[j].q, s'.queues[j].q;
    assert Distinct(q);
    match event
    case Takes(t) => TakenFromQueue(q, t);
    case Emplaces(t, _) =>
      assert At(s, PlaceOf(agent), t);
      assert !At(s, Queued(j), t);
      PutIntoQueue(q, t);
    case _ => if q' != q { PoppedFromQueue(q); }
  }

  lemma PlacesMove(s: State, s': State, agent: Agent, j: nat, event: Event)
    requires PlacesFit(s) && TaskStep(s, s', agent, j, event) && OthersKeepHands(s, s', agent)
    ensures PlacesFit(s')
  {
    QueueAfter(s, s', agent, j, event);
    forall place, t ensures At(s', place, t) <==> t in s'.history.place && s'.history.place[t] == place {
      PlaceMoves(s, s', agent, j, event, place, t);
    }
  }

  lemma PlaceMoves(s: State, s': State, agent: Agent, j: nat, event: Event, place: Place, t: Task)
    requires PlacesFit(s) && TaskStep(s, s', agent, j, event) && OthersKeepHands(s, s', agent) && QueueHas(s, s', j, event)
    ensures At(s', place, t) <==> t in s'.history.place && s'.history.place[t] == place
  {
    assert At(s, place, t) <==> t in s.history.place && s.history.place[t] == place;
    assert At(s, PlaceOf(agent), t) <==> t in s.history.place && s.history.place[t] == PlaceOf(agent);
    assert At(s, Queued(j), t) <==> t in s.history.place && s.history.place[t] == Queued(j);
    assert Hand(s', agent) == Some(t) <==> At(s', PlaceOf(agent), t);
  }

  // ---------------------------------------------------------------- calls and the rest of the history

  predicate IsRunning(s: State, i: nat) { i < |s.workers| && s.workers[i].pc.Running? }

  /** The task has been called: it is finished, or running. */
  predicate Called(s: State, t: Task) {
    && t in s.history.place
    && (s.history.place[t] == Finished || (s.history.place[t].Held? && IsRunning(s, s.history.place[t].i)))
  }

  predicate NoRepeats(calls: seq<Task>) { forall a, b | 0 <= a < b < |calls| :: calls[a] != calls[b] }

  ghost predicate CallsFit(s: State) {
    NoRepeats(s.history.calls) && forall t :: t in s.history.calls <==> Called(s, t)
  }

  /** The tasks enqueued are those in a queue, in a worker's hand or finished, and those a worker dropped. */
  ghost predicate HistoryFits(s: State) {
    && (forall t | t in s.history.enqueued :: t in s.history.place && !s.history.place[t].Pushing? && !s.history.place[t].Rejected?)
    && (forall t | t in s.history.place && t !in s.history.enqueued ::
          !s.history.place[t].Queued? && !s.history.place[t].Held? && !s.history.place[t].Finished?)
    && (s.history.dropped != {} ==> s.shared.stopped)
  }

  /** A worker starts running when it calls a task and stops when that finishes; tasks are dropped only after a stop. */
  ghost predicate CallStep(s: State, s': State, agent: Agent, j: nat, event: Event) {
    && |s'.workers| == |s.workers|
    && (forall i | 0 <= i < |s.workers| && Pool(i) != agent :: s'.workers[i] == s.workers[i])
    && (forall i | 0 <= i < |s.workers| && Pool(i) == agent && s'.workers[i].pc.Took? :: event.Takes? && s'.workers[i].pc.j == j)
    && (event.Calls? <==> agent.Pool? && IsRunning(s', agent.i))
    && (event.Finishes? <==> agent.Pool? && IsRunning(s, agent.i))
    && (forall i | Pool(i) != agent :: IsRunning(s', i) == IsRunning(s, i))
    && (event.Drops? ==> s.shared.stopped) && (s.shared.stopped ==> s'.shared.stopped)
    && (event.Takes? ==> agent.Pool?) && (event.Submits? || event.Rejects? || event.Emplaces? ==> agent.Outside?)
  }

  lemma HistoryMoves(s: State, s': State, agent: Agent, j: nat, event: Event)
    requires PlacesFit(s) && HistoryFits(s) && TaskStep(s, s', agent, j, event) && CallStep(s, s', agent, j, event)
    ensures HistoryFits(s')
  {
    if !event.Quiet? {
      var t := event.t;
      assert At(s, PlaceOf(agent), t) <==> Hand(s, agent) == Some(t);
      assert event.Takes? ==> At(s, Queued(j), t);
    }
  }

  lemma CallsMove(s: State, s': State, agent: Agent, j: nat, event: Event)
    requires PlacesFit(s) && CallsFit(s) && TaskStep(s, s', agent, j, event) && CallStep(s, s', agent, j, event)
    ensures CallsFit(s')
  {
    if !event.Quiet? {
      assert At(s, PlaceOf(agent), event.t) <==> Hand(s, agent) == Some(event.t);
      assert event.Takes? ==> At(s, Queued(j), event.t);
    }
    forall t ensures t in s'.history.calls <==> Called(s', t) {
      CallMoves(s, s', agent, j, event, t);
    }
    if event.Calls? {
      assert !Called(s, event.t);
    }
  }

  lemma CallMoves(s: State, s': State, agent: Agent, j: nat, event: Event, t: Task)
    requires PlacesFit(s) && CallsFit(s) && TaskStep(s, s', agent, j, event) && CallStep(s, s', agent, j, event)
    ensures t in s'.history.calls <==> Called(s', t)
  {
    assert t in s.history.calls <==> Called(s, t);
    assert At(s, PlaceOf(agent), t) <==> t in s.history.place && s.history.place[t] == PlaceOf(agent);
    assert At(s, Queued(j), t) <==> t in s.history.place && s.history.place[t] == Queued(j);
  }

  // ---------------------------------------------------------------- the steps of the executor

  lemma WorkerTaskStep(s: State, i: nat, choice: bool) returns (j: nat, event: Event)
    requires LocksFit(s) && i < |s.workers| && WorkerStep(s, i, choice).Some?
    ensures var s' := WorkerStep(s, i, choice).value;
            && TaskStep(s, s', Pool(i), j, event) && OthersKeepHands(s, s', Pool(i)) && CallStep(s, s', Pool(i), j, event)
  {
    hide MoveWorker, Record, WorkerHand, WorkerFits, HandChange, QueueChange, OuterHand, QueueFits, OuterFits;
    j := WorkerTarget(s.workers[i].pc, i, |s.workers|);
    var m := MoveWorker(s.workers[i], s.queues[j], s.shared.stopped, i, j, |s.workers|, choice).value;
    event := m.event;
    WorkerEvent(s.workers[i], s.queues, s.shared.stopped, i, |s.workers|, choice, m);
    WorkerCall(s.workers[i], s.queues, s.shared.stopped, i, |s.workers|, choice, m);
  }

  lemma WorkerCall(w: Worker, queues: seq<Queue>, stopped: bool, i: nat, n: nat, choice: bool, m: WorkerMove)
    requires i < n == |queues| && WorkerFits(w, i, queues, stopped)
    requires var j := WorkerTarget(w.pc, i, n);
             j < n && MoveWorker(w, queues[j], stopped, i, j, n, choice) == Some(m)
    ensures (m.event.Calls? <==> m.worker.pc.Running?) && (m.event.Finishes? <==> w.pc.Running?) && (m.event.Drops? ==> stopped)
    ensures m.worker.pc.Took? ==> m.event.Takes? && m.worker.pc.j == WorkerTarget(w.pc, i, n)
  {
  }

  lemma OuterTaskStep(s: State, p: nat, choice: bool) returns (j: nat, event: Event)
    requires LocksFit(s) && p < |s.others| && OuterStep(s, p, choice).Some?
    ensures var s' := OuterStep(s, p, choice).value;
            && TaskStep(s, s', Outside(p), j, event) && OthersKeepHands(s, s', Outside(p)) && CallStep(s, s', Outside(p), j, event)
  {
    hide MoveOuter, Record, WorkerHand, WorkerFits, HandChange, QueueChange, OuterHand, QueueFits, OuterFits;
    j := OuterTarget(s.others[p], |s.queues|);
    var m := MoveOuter(s.others[p], s.queues[j], s.workers[j].busy, s.shared, p, j, |s.queues|, choice).value;
    event := m.event;
    OuterEvent(s.others[p], s.queues[j], s.workers[j].busy, s.shared, p, j, |s.queues|, choice, m);
    OuterDrop(s.others[p], s.queues[j], s.workers[j].busy, s.shared, p, j, |s.queues|, choice, m);
    DoneIsStopped(s.queues[j], j, s.workers, s.shared.stopped);
  }

  lemma OuterDrop(pc: OuterPc, queue: Queue, busy: bool, sh: Shared, p: nat, j: nat, n: nat, choice: bool, m: OuterMove)
    requires MoveOuter(pc, queue, busy, sh, p, j, n, choice) == Some(m)
    ensures (m.event.Drops? ==> queue.done) && (sh.stopped ==> m.shared.stopped)
  {
  }

  lemma EnterTaskStep(s: State, p: nat, call: Call) returns (event: Event)
    requires Sized(s) && p < |s.others| && EnterStep(s, p, call).Some?
    ensures var s' := EnterStep(s, p, call).value;
            && TaskStep(s, s', Outside(p), 0, event) && OthersKeepHands(s, s', Outside(p)) && CallStep(s, s', Outside(p), 0, event)
  {
    event := Enters(s.others[p], call, s.history).value.1;
    assert s.queues == s.queues[0 := s.queues[0]];
  }

  ghost predicate TasksFit(s: State) { PlacesFit(s) && CallsFit(s) && HistoryFits(s) }

  lemma TasksMove(s: State, s': State, agent: Agent, j: nat, event: Event)
    requires TasksFit(s) && TaskStep(s, s', agent, j, event) && OthersKeepHands(s, s', agent) && CallStep(s, s', agent, j, event)
    ensures TasksFit(s')
  {
    PlacesMove(s, s', agent, j, event);
    CallsMove(s, s', agent, j, event);
    HistoryMoves(s, s', agent, j, event);
  }

  /** The change of one step, whichever thread makes it. */
  lemma AnyTaskStep(s: State, step: Step) returns (agent: Agent, j: nat, event: Event)
    requires LocksFit(s) && Next(s, step).Some?
    ensures var s' := Next(s, step).value;
            && TaskStep(s, s', agent, j, event) && OthersKeepHands(s, s', agent) && CallStep(s, s', agent, j, event)
  {
    hide WorkerStep, OuterStep, EnterStep, TaskStep, OthersKeepHands, CallStep, LocksFit;
    j := 0;
    match step
    case OfWorker(i, choice) => j, event := WorkerTaskStep(s, i, choice); agent := Pool(i);
    case OfOther(p, choice) => j, event := OuterTaskStep(s, p, choice); agent := Outside(p);
    case Enter(p, call) => event := EnterTaskStep(s, p, call); agent := Outside(p);
  }

  lemma StepKeepsTasks(s: State, step: Step)
    requires LocksFit(s) && TasksFit(s) && Next(s, step).Some?
    ensures TasksFit(Next(s, step).value)
  {
    hide Next, TaskStep, OthersKeepHands, CallStep, LocksFit, TasksFit;
    var agent, j, event := AnyTaskStep(s, step);
    TasksMove(s, Next(s, step).value, agent, j, event);
  }
}
