/** What the operations of the executor come to when nothing interferes: the steps of one thread alone, to the end. */
module ExecutorAlone {
  import opened Options
  import opened Executor
  import opened ExecutorLocks
  import opened ExecutorTasks
  import opened ExecutorTheorems

  /** The same step `n` times. */
  function Alone(s: State, step: Step, n: nat): (r: Option<State>)
    requires Sized(s)
    ensures r.Some? ==> Sized(r.value) && |r.value.workers| == |s.workers| && |r.value.others| == |s.others|
    decreases n
  {
    if n == 0 then Some(s)
    else
      match Next(s, step)
      case None => None
      case Some(s') => Alone(s', step, n - 1)
  }

  lemma {:induction false} AloneIsRun(s: State, step: Step, n: nat)
    requires Sized(s)
    ensures Run(s, seq(n, _ => step)) == Alone(s, step, n)
    decreases n
  {
    hide Next;
    if n > 0 {
      var steps := seq(n, _ => step);
      assert steps[0] == step && steps[1..] == seq(n - 1, _ => step);
      if Next(s, step).Some? {
        AloneIsRun(Next(s, step).value, step, n - 1);
      }
    }
  }

  /** Running alone leads from one state to another. */
  ghost predicate Leads(s: State, step: Step, t: State)
    requires Sized(s)
  {
    exists n: nat :: Alone(s, step, n) == Some(t)
  }

  lemma {:induction false} AloneAdds(s: State, step: Step, a: nat, b: nat)
    requires Sized(s) && Alone(s, step, a).Some?
    ensures Alone(s, step, a + b) == Alone(Alone(s, step, a).value, step, b)
    decreases a
  {
    hide Next;
    if a > 0 {
      AloneAdds(Next(s, step).value, step, a - 1, b);
    }
  }

  lemma LeadsOn(s: State, step: Step, t: State, u: State)
    requires Sized(s) && Sized(t) && Leads(s, step, t) && Leads(t, step, u)
    ensures Leads(s, step, u)
  {
    var a: nat :| Alone(s, step, a) == Some(t);
    var b: nat :| Alone(t, step, b) == Some(u);
    AloneAdds(s, step, a, b);
  }

  lemma LeadsByOne(s: State, step: Step, t: State)
    requires Sized(s) && Next(s, step) == Some(t)
    ensures Leads(s, step, t)
  {
    assert Alone(t, step, 0) == Some(t);
    assert Alone(s, step, 1) == Some(t);
  }

  /** One more step at the end. */
  lemma LeadsThen(s: State, step: Step, t: State, u: State)
    requires Sized(s) && Sized(t) && Leads(s, step, t) && Next(t, step) == Some(u)
    ensures Leads(s, step, u)
  {
    LeadsByOne(t, step, u);
    LeadsOn(s, step, t, u);
  }

  lemma LeadsToItself(s: State, step: Step)
    requires Sized(s)
    ensures Leads(s, step, s)
  {
    assert Alone(s, step, 0) == Some(s);
  }

  predicate NobodyLocks(s: State) { forall j | 0 <= j < |s.queues| :: s.queues[j].holder == None }

  // ---------------------------------------------------------------- a worker

  /** `s`, apart from worker `i`, queue `j` and the history. */
  function Now(s: State, i: nat, w: Worker, j: nat, queue: Queue, h: History): (t: State)
    requires Sized(s) && i < |s.workers| && j < |s.queues|
    ensures Sized(t)
  {
    s.(workers := s.workers[i := w], queues := s.queues[j := queue], history := h)
  }

  lemma NowIsSame(s: State, i: nat, j: nat)
    requires Sized(s) && i < |s.workers| && j < |s.queues|
    ensures Now(s, i, s.workers[i], j, s.queues[j], s.history) == s
  {
    assert s.workers[i := s.workers[i]] == s.workers && s.queues[j := s.queues[j]] == s.queues;
  }

  /** A step about the queue that is changing. */
  lemma WorkerGoes(s: State, i: nat, w: Worker, j: nat, queue: Queue, h: History, m: WorkerMove)
    requires Sized(s) && i < |s.workers| && j < |s.queues| && WorkerTarget(w.pc, i, |s.workers|) == j
    requires MoveWorker(w, queue, s.shared.stopped, i, j, |s.workers|, true) == Some(m)
    ensures Next(Now(s, i, w, j, queue, h), OfWorker(i, true))
         == Some(Now(s, i, m.worker, j, m.queue, Record(h, Pool(i), m.event)))
  {
    hide MoveWorker, Record;
    var t := Now(s, i, w, j, queue, h);
    assert t.workers[i := m.worker] == s.workers[i := m.worker] && t.queues[j := m.queue] == s.queues[j := m.queue];
  }

  /** A step that leaves all queues alone. */
  lemma WorkerGoesOn(s: State, i: nat, w: Worker, j: nat, queue: Queue, h: History, w': Worker, event: Event)
    requires Sized(s) && i < |s.workers| && j < |s.queues| && WorkerTarget(w.pc, i, |s.workers|) == i
    requires var own := if i == j then queue else s.queues[i];
             MoveWorker(w, own, s.shared.stopped, i, i, |s.workers|, true) == Some(WorkerMove(w', own, event))
    ensures Next(Now(s, i, w, j, queue, h), OfWorker(i, true)) == Some(Now(s, i, w', j, queue, Record(h, Pool(i), event)))
  {
    hide MoveWorker, Record;
    var t := Now(s, i, w, j, queue, h);
    assert t.workers[i := w'] == s.workers[i := w'] && t.queues[i := t.queues[i]] == t.queues;
  }

  function TargetOf(s: State, i: nat, k: nat): (j: nat)
    requires Sized(s)
    ensures j < |s.queues|
  {
    (i + k) % |s.workers|
  }

  function AtPc(s: State, i: nat, pc: WorkerPc): (t: State)
    requires Sized(s) && i < |s.workers|
    ensures Sized(t)
  {
    s.(workers := s.workers[i := s.workers[i].(pc := pc)])
  }

  lemma AtPcIsNow(s: State, i: nat, pc: WorkerPc, j: nat)
    requires Sized(s) && i < |s.workers| && j < |s.queues|
    ensures AtPc(s, i, pc) == Now(s, i, s.workers[i].(pc := pc), j, s.queues[j], s.history)
  {
    assert s.queues[j := s.queues[j]] == s.queues;
  }

  /** A free queue without tasks is tried and passed. */
  lemma TriesAndPasses(s: State, i: nat, k: nat)
    requires Sized(s) && i < |s.workers| && k < 4 * |s.workers|
    requires s.queues[TargetOf(s, i, k)].q == [] && s.queues[TargetOf(s, i, k)].holder == None
    ensures Leads(AtPc(s, i, Spin(k)), OfWorker(i, true), AtPc(s, i, Spin(k + 1)))
  {
    hide Leads;
    var j, w := TargetOf(s, i, k), s.workers[i];
    var queue, step := s.queues[j], OfWorker(i, true);
    var locked := queue.(holder := Some(Pool(i)));
    AtPcIsNow(s, i, Spin(k), j);
    AtPcIsNow(s, i, Spin(k + 1), j);
    WorkerGoes(s, i, w.(pc := Spin(k)), j, queue, s.history, WorkerMove(w.(pc := Locked(j, Stealing(k))), locked, Quiet));
    WorkerGoes(s, i, w.(pc := Locked(j, Stealing(k))), j, locked, s.history, WorkerMove(w.(pc := Spin(k + 1)), queue, Quiet));
    LeadsByOne(AtPc(s, i, Spin(k)), step, Now(s, i, w.(pc := Locked(j, Stealing(k))), j, locked, s.history));
    LeadsThen(AtPc(s, i, Spin(k)), step, Now(s, i, w.(pc := Locked(j, Stealing(k))), j, locked, s.history), AtPc(s, i, Spin(k + 1)));
  }

  lemma {:induction false} PassesEmpty(s: State, i: nat, k: nat)
    requires Sized(s) && i < |s.workers| && k <= 4 * |s.workers|
    requires forall m | 0 <= m < k :: s.queues[TargetOf(s, i, m)].q == [] && s.queues[TargetOf(s, i, m)].holder == None
    ensures Leads(AtPc(s, i, Spin(0)), OfWorker(i, true), AtPc(s, i, Spin(k)))
  {
    hide Leads;
    if k == 0 {
      LeadsToItself(AtPc(s, i, Spin(0)), OfWorker(i, true));
    } else {
      PassesEmpty(s, i, k - 1);
      TriesAndPasses(s, i, k - 1);
      LeadsOn(AtPc(s, i, Spin(0)), OfWorker(i, true), AtPc(s, i, Spin(k - 1)), AtPc(s, i, Spin(k)));
    }
  }

  /** The history after a worker has taken, called and finished a task. */
  function AfterTask(h: History, t: Task): History {
    h.(calls := h.calls + [t], finished := h.finished + {t}, place := h.place[t := Finished])
  }

  lemma TaskRecords(h: History, i: nat, t: Task)
    ensures Record(Record(Record(h, Pool(i), Takes(t)), Pool(i), Calls(t)), Pool(i), Finishes(t)) == AfterTask(h, t)
  {
    assert h.place[t := Held(i)][t := Finished] == h.place[t := Finished];
  }

  /** From the attempt at a free queue with a task at its front to having that task. */
  lemma TakesFront(s: State, i: nat, k: nat, t: Task)
    requires Sized(s) && i < |s.workers| && k < 4 * |s.workers|
    requires var queue := s.queues[TargetOf(s, i, k)];
             queue.q != [] && queue.q[0] == Some(t) && queue.holder == None && !queue.done
    ensures var j := TargetOf(s, i, k);
            Leads(AtPc(s, i, Spin(k)), OfWorker(i, true),
                  Now(s, i, Worker(Got(Some(t)), true), j, s.queues[j].(q := s.queues[j].q[1..]),
                      Record(s.history, Pool(i), Takes(t))))
  {
    hide Leads, Record, Now, AtPc;
    var j, b, step, h := TargetOf(s, i, k), s.workers[i].busy, OfWorker(i, true), s.history;
    var queue := s.queues[j];
    var start, locked := AtPc(s, i, Spin(k)), queue.(holder := Some(Pool(i)));
    var moved, popped := locked.(q := queue.q[0 := None]), locked.(q := queue.q[1..]);
    assert moved.q[1..] == queue.q[1..];
    var h1 := Record(h, Pool(i), Takes(t));
    var t1, t2 := Now(s, i, Worker(Locked(j, Stealing(k)), b), j, locked, h), Now(s, i, Worker(Took(j, t), b), j, moved, h1);
    var t3, t4 := Now(s, i, Worker(Marked(j, t), true), j, moved, h1), Now(s, i, Worker(Popped(j, t), true), j, popped, h1);
    QuietRecord(h, i);
    QuietRecord(h1, i);
    AtPcIsNow(s, i, Spin(k), j);
    WorkerGoes(s, i, Worker(Spin(k), b), j, queue, h, WorkerMove(Worker(Locked(j, Stealing(k)), b), locked, Quiet));
    LeadsByOne(start, step, t1);
    WorkerGoes(s, i, Worker(Locked(j, Stealing(k)), b), j, locked, h, WorkerMove(Worker(Took(j, t), b), moved, Takes(t)));
    LeadsThen(start, step, t1, t2);
    WorkerGoes(s, i, Worker(Took(j, t), b), j, moved, h1, WorkerMove(Worker(Marked(j, t), true), moved, Quiet));
    LeadsThen(start, step, t2, t3);
    WorkerGoes(s, i, Worker(Marked(j, t), true), j, moved, h1, WorkerMove(Worker(Popped(j, t), true), popped, Quiet));
    LeadsThen(start, step, t3, t4);
    var rest := queue.(q := queue.q[1..]);
    WorkerGoes(s, i, Worker(Popped(j, t), true), j, popped, h1, WorkerMove(Worker(Got(Some(t)), true), rest, Quiet));
    LeadsThen(start, step, t4, Now(s, i, Worker(Got(Some(t)), true), j, rest, h1));
  }

  /** From having a task to its end. */
  lemma RunsTask(s: State, i: nat, j: nat, queue: Queue, h: History, t: Task)
    requires Sized(s) && i < |s.workers| && j < |s.queues| && !s.shared.stopped
    ensures Leads(Now(s, i, Worker(Got(Some(t)), true), j, queue, h), OfWorker(i, true),
                  Now(s, i, Worker(Check, false), j, queue, Record(Record(h, Pool(i), Calls(t)), Pool(i), Finishes(t))))
  {
    hide Leads, Record, Now;
    var step, h1 := OfWorker(i, true), Record(h, Pool(i), Calls(t));
    var h2 := Record(h1, Pool(i), Finishes(t));
    var t0, t1 := Now(s, i, Worker(Got(Some(t)), true), j, queue, h), Now(s, i, Worker(Running(Some(t)), true), j, queue, h1);
    var t2 := Now(s, i, Worker(Ran, true), j, queue, h2);
    QuietRecord(h2, i);
    WorkerGoesOn(s, i, Worker(Got(Some(t)), true), j, queue, h, Worker(Running(Some(t)), true), Calls(t));
    LeadsByOne(t0, step, t1);
    WorkerGoesOn(s, i, Worker(Running(Some(t)), true), j, queue, h1, Worker(Ran, true), Finishes(t));
    LeadsThen(t0, step, t1, t2);
    WorkerGoesOn(s, i, Worker(Ran, true), j, queue, h2, Worker(Check, false), Quiet);
    LeadsThen(t0, step, t2, Now(s, i, Worker(Check, false), j, queue, h2));
  }

  lemma TakesAndRuns(s: State, i: nat, k: nat, t: Task)
    requires Sized(s) && i < |s.workers| && k < 4 * |s.workers| && !s.shared.stopped
    requires var queue := s.queues[TargetOf(s, i, k)];
             queue.q != [] && queue.q[0] == Some(t) && queue.holder == None && !queue.done
    ensures var j := TargetOf(s, i, k);
            Leads(AtPc(s, i, Spin(k)), OfWorker(i, true),
                  Now(s, i, Worker(Check, false), j, s.queues[j].(q := s.queues[j].q[1..]), AfterTask(s.history, t)))
  {
    hide Leads, Record, Now, AtPc;
    var j, h := TargetOf(s, i, k), Record(s.history, Pool(i), Takes(t));
    var rest := s.queues[j].(q := s.queues[j].q[1..]);
    TakesFront(s, i, k, t);
    RunsTask(s, i, j, rest, h, t);
    TaskRecords(s.history, i, t);
    LeadsOn(AtPc(s, i, Spin(k)), OfWorker(i, true), Now(s, i, Worker(Got(Some(t)), true), j, rest, h),
            Now(s, i, Worker(Check, false), j, rest, AfterTask(s.history, t)));
  }

  lemma QuietRecord(h: History, i: nat)
    ensures Record(h, Pool(i), Quiet) == h
  {
  }

  lemma ChecksFirst(s: State, i: nat)
    requires Sized(s) && i < |s.workers| && s.workers[i].pc == Check && !s.shared.stopped
    ensures Leads(s, OfWorker(i, true), AtPc(s, i, Spin(0)))
  {
    NowIsSame(s, i, i);
    AtPcIsNow(s, i, Spin(0), i);
    WorkerGoesOn(s, i, s.workers[i], i, s.queues[i], s.history, s.workers[i].(pc := Spin(0)), Quiet);
    LeadsByOne(s, OfWorker(i, true), AtPc(s, i, Spin(0)));
  }

  /**
    * A worker that runs alone while nothing is locked or stopped takes the front task of the first queue that has one,
    * counting from its own, calls it, and is back at the start with its flag down: nothing else has changed.
    */
  lemma WorkerAloneRunsFirstTask(s: State, i: nat, k: nat)
    requires Reachable(s) && Sized(s) && i < |s.workers| && s.workers[i].pc == Check && !s.shared.stopped && NobodyLocks(s)
    requires k < |s.workers| && s.queues[TargetOf(s, i, k)].q != []
    requires forall m | 0 <= m < k :: s.queues[TargetOf(s, i, m)].q == []
    ensures var j := TargetOf(s, i, k);
            && s.queues[j].q[0].Some?
            && Leads(s, OfWorker(i, true),
                     Now(s, i, Worker(Check, false), j, s.queues[j].(q := s.queues[j].q[1..]),
                         AfterTask(s.history, s.queues[j].q[0].value)))
  {
    hide Leads, Reachable, AfterTask;
    var j := TargetOf(s, i, k);
    FreeQueueIsReady(s, j);
    ChecksFirst(s, i);
    PassesEmpty(s, i, k);
    LeadsOn(s, OfWorker(i, true), AtPc(s, i, Spin(0)), AtPc(s, i, Spin(k)));
    var t := s.queues[j].q[0].value;
    TakesAndRuns(s, i, k, t);
    LeadsOn(s, OfWorker(i, true), AtPc(s, i, Spin(k)),
            Now(s, i, Worker(Check, false), j, s.queues[j].(q := s.queues[j].q[1..]), AfterTask(s.history, t)));
  }

  lemma FreeQueueIsReady(s: State, j: nat)
    requires Reachable(s) && j < |s.queues| && s.queues[j].holder == None && !s.shared.stopped
    ensures !s.queues[j].done && (s.queues[j].q != [] ==> s.queues[j].q[0].Some?)
  {
    ReachableFits(s);
    assert QueueFits(s.queues[j], j, s.workers, s.shared.stopped);
  }

  /** With all queues empty it tries each one four times, and then waits at its own. */
  lemma WorkerAloneWaits(s: State, i: nat)
    requires Sized(s) && i < |s.workers| && s.workers[i].pc == Check && !s.shared.stopped && NobodyLocks(s)
    requires forall j | 0 <= j < |s.queues| :: s.queues[j].q == [] && !s.queues[j].done
    ensures Leads(s, OfWorker(i, true), AtPc(s, i, Spin(4 * |s.workers|)))
    ensures Next(AtPc(s, i, Spin(4 * |s.workers|)), OfWorker(i, true)) == Some(AtPc(s, i, Own))
    ensures Alone(AtPc(s, i, Own), OfWorker(i, true), 2) == Some(AtPc(s, i, Own))
  {
    hide Leads;
    var n, w, queue := |s.workers|, s.workers[i], s.queues[i];
    ChecksFirst(s, i);
    PassesEmpty(s, i, 4 * n);
    LeadsOn(s, OfWorker(i, true), AtPc(s, i, Spin(0)), AtPc(s, i, Spin(4 * n)));
    SpinEnds(s, i);
    OwnIsRetried(s, i);
  }

  lemma SpinEnds(s: State, i: nat)
    requires Sized(s) && i < |s.workers|
    ensures Next(AtPc(s, i, Spin(4 * |s.workers|)), OfWorker(i, true)) == Some(AtPc(s, i, Own))
  {
    var n := |s.workers|;
    var j := TargetOf(s, i, 4 * n);
    AtPcIsNow(s, i, Spin(4 * n), j);
    AtPcIsNow(s, i, Own, j);
    WorkerGoes(s, i, s.workers[i].(pc := Spin(4 * n)), j, s.queues[j], s.history,
               WorkerMove(s.workers[i].(pc := Own), s.queues[j], Quiet));
  }

  lemma OwnIsRetried(s: State, i: nat)
    requires Sized(s) && i < |s.workers| && s.queues[i] == Queue([], false, None)
    ensures Alone(AtPc(s, i, Own), OfWorker(i, true), 2) == Some(AtPc(s, i, Own))
  {
    var w, queue := s.workers[i], s.queues[i];
    var locked := queue.(holder := Some(Pool(i)));
    AtPcIsNow(s, i, Own, i);
    WorkerGoes(s, i, w.(pc := Own), i, queue, s.history, WorkerMove(w.(pc := Locked(i, Waiting)), locked, Quiet));
    WorkerGoes(s, i, w.(pc := Locked(i, Waiting)), i, locked, s.history, WorkerMove(w.(pc := Own), queue, Quiet));
    var next := Now(s, i, w.(pc := Locked(i, Waiting)), i, locked, s.history);
    assert Alone(next, OfWorker(i, true), 1) == Some(AtPc(s, i, Own)) by {
      assert Alone(AtPc(s, i, Own), OfWorker(i, true), 0) == Some(AtPc(s, i, Own));
    }
  }

  /** After a stop, a worker at the start of its loop or waiting at its own queue exits. */
  lemma StoppedWorkerExits(s: State, i: nat)
    requires Sized(s) && i < |s.workers| && s.shared.stopped
    requires s.workers[i].pc == Check || (s.workers[i].pc == Own && s.queues[i].done && s.queues[i].holder == None)
    ensures Leads(s, OfWorker(i, true), AtPc(s, i, Exited))
  {
    hide Leads;
    var w, queue, step := s.workers[i], s.queues[i], OfWorker(i, true);
    NowIsSame(s, i, i);
    AtPcIsNow(s, i, Exited, i);
    if w.pc == Check {
      WorkerGoesOn(s, i, w, i, queue, s.history, w.(pc := Exited), Quiet);
      LeadsByOne(s, step, AtPc(s, i, Exited));
    } else {
      var locked := queue.(holder := Some(Pool(i)));
      WorkerGoes(s, i, w, i, queue, s.history, WorkerMove(w.(pc := Locked(i, Waiting)), locked, Quiet));
      LeadsByOne(s, step, Now(s, i, w.(pc := Locked(i, Waiting)), i, locked, s.history));
      WorkerGoes(s, i, w.(pc := Locked(i, Waiting)), i, locked, s.history, WorkerMove(w.(pc := Got(None)), queue, Quiet));
      LeadsThen(s, step, Now(s, i, w.(pc := Locked(i, Waiting)), i, locked, s.history), Now(s, i, w.(pc := Got(None)), i, queue, s.history));
      WorkerGoesOn(s, i, w.(pc := Got(None)), i, queue, s.history, w.(pc := Exited), Quiet);
      LeadsThen(s, step, Now(s, i, w.(pc := Got(None)), i, queue, s.history), AtPc(s, i, Exited));
    }
  }

  // ---------------------------------------------------------------- a thread outside

  /** `s`, apart from the outside thread `p`, queue `j`, the shared fields and the history. */
  function Then(s: State, p: nat, pc: OuterPc, j: nat, queue: Queue, sh: Shared, h: History): (t: State)
    requires Sized(s) && p < |s.others| && j < |s.queues|
    ensures Sized(t)
  {
    s.(others := s.others[p := pc], queues := s.queues[j := queue], shared := sh, history := h)
  }

  lemma ThenIsSame(s: State, p: nat, j: nat)
    requires Sized(s) && p < |s.others| && j < |s.queues|
    ensures Then(s, p, s.others[p], j, s.queues[j], s.shared, s.history) == s
  {
    assert s.others[p := s.others[p]] == s.others && s.queues[j := s.queues[j]] == s.queues;
  }

  lemma OuterGoes(s: State, p: nat, pc: OuterPc, j: nat, queue: Queue, sh: Shared, h: History, m: OuterMove)
    requires Sized(s) && p < |s.others| && j < |s.queues| && OuterTarget(pc, |s.queues|) == j
    requires MoveOuter(pc, queue, s.workers[j].busy, sh, p, j, |s.queues|, true) == Some(m)
    ensures Next(Then(s, p, pc, j, queue, sh, h), OfOther(p, true))
         == Some(Then(s, p, m.pc, j, m.queue, m.shared, Record(h, Outside(p), m.event)))
  {
    hide MoveOuter, Record;
    var t := Then(s, p, pc, j, queue, sh, h);
    assert t.others[p := m.pc] == s.others[p := m.pc] && t.queues[j := m.queue] == s.queues[j := m.queue];
  }

  /** A step that leaves all queues alone and means nothing for tasks. */
  lemma OuterGoesOn(s: State, p: nat, pc: OuterPc, j: nat, queue: Queue, sh: Shared, h: History, pc': OuterPc, sh': Shared)
    requires Sized(s) && p < |s.others| && j < |s.queues| && OuterTarget(pc, |s.queues|) < |s.queues|
    requires var t := OuterTarget(pc, |s.queues|);
             var own := if t == j then queue else s.queues[t];
             MoveOuter(pc, own, s.workers[t].busy, sh, p, t, |s.queues|, true) == Some(OuterMove(pc', own, sh', Quiet))
    ensures Next(Then(s, p, pc, j, queue, sh, h), OfOther(p, true)) == Some(Then(s, p, pc', j, queue, sh', h))
  {
    hide MoveOuter;
    var t, now := OuterTarget(pc, |s.queues|), Then(s, p, pc, j, queue, sh, h);
    assert now.others[p := pc'] == s.others[p := pc'] && now.queues[t := now.queues[t]] == now.queues;
  }

  /** `s`, apart from thread `p` and the shared fields. */
  function AtOther(s: State, p: nat, pc: OuterPc, sh: Shared): (t: State)
    requires Sized(s) && p < |s.others|
    ensures Sized(t)
  {
    s.(others := s.others[p := pc], shared := sh)
  }

  lemma AtOtherIsThen(s: State, p: nat, pc: OuterPc, sh: Shared, j: nat)
    requires Sized(s) && p < |s.others| && j < |s.queues|
    ensures AtOther(s, p, pc, sh) == Then(s, p, pc, j, s.queues[j], sh, s.history)
  {
    assert s.queues[j := s.queues[j]] == s.queues;
  }

  /** A step of thread `p` that changes nothing else but the shared fields. */
  lemma OtherSteps(s: State, p: nat, pc: OuterPc, sh: Shared, pc': OuterPc, sh': Shared)
    requires Sized(s) && p < |s.others| && OuterTarget(pc, |s.queues|) < |s.queues|
    requires var t := OuterTarget(pc, |s.queues|);
             MoveOuter(pc, s.queues[t], s.workers[t].busy, sh, p, t, |s.queues|, true) == Some(OuterMove(pc', s.queues[t], sh', Quiet))
    ensures Leads(AtOther(s, p, pc, sh), OfOther(p, true), AtOther(s, p, pc', sh'))
  {
    hide MoveOuter;
    AtOtherIsThen(s, p, pc, sh, 0);
    AtOtherIsThen(s, p, pc', sh', 0);
    OuterGoesOn(s, p, pc, 0, s.queues[0], sh, s.history, pc', sh');
    LeadsByOne(AtOther(s, p, pc, sh), OfOther(p, true), AtOther(s, p, pc', sh'));
  }

  // ---------------------------------------------------------------- push

  function RoundTarget(s: State, start: nat, k: nat): (j: nat)
    requires Sized(s)
    ensures j < |s.queues|
  {
    (start + k) % |s.queues|
  }

  /** The queue is closed, or somebody has locked it. */
  predicate Refuses(queue: Queue) { queue.done || queue.holder.Some? }

  lemma RoundPasses(s: State, p: nat, t: Task, start: nat, k: nat, sh: Shared)
    requires Sized(s) && p < |s.others| && k < |s.queues| && Refuses(s.queues[RoundTarget(s, start, k)])
    ensures Leads(AtOther(s, p, TryRound(t, start, k), sh), OfOther(p, true), AtOther(s, p, TryRound(t, start, k + 1), sh))
  {
    hide Leads;
    if s.queues[RoundTarget(s, start, k)].done {
      OtherSteps(s, p, TryRound(t, start, k), sh, TryRound(t, start, k + 1), sh);
    } else {
      OtherSteps(s, p, TryRound(t, start, k), sh, TryLock(t, start, k), sh);
      OtherSteps(s, p, TryLock(t, start, k), sh, TryRound(t, start, k + 1), sh);
      LeadsOn(AtOther(s, p, TryRound(t, start, k), sh), OfOther(p, true), AtOther(s, p, TryLock(t, start, k), sh),
              AtOther(s, p, TryRound(t, start, k + 1), sh));
    }
  }

  lemma {:induction false} RoundsPass(s: State, p: nat, t: Task, start: nat, k: nat, sh: Shared)
    requires Sized(s) && p < |s.others| && k <= |s.queues|
    requires forall m | 0 <= m < k :: Refuses(s.queues[RoundTarget(s, start, m)])
    ensures Leads(AtOther(s, p, TryRound(t, start, 0), sh), OfOther(p, true), AtOther(s, p, TryRound(t, start, k), sh))
  {
    hide Leads;
    if k == 0 {
      LeadsToItself(AtOther(s, p, TryRound(t, start, 0), sh), OfOther(p, true));
    } else {
      RoundsPass(s, p, t, start, k - 1, sh);
      RoundPasses(s, p, t, start, k - 1, sh);
      LeadsOn(AtOther(s, p, TryRound(t, start, 0), sh), OfOther(p, true), AtOther(s, p, TryRound(t, start, k - 1), sh),
              AtOther(s, p, TryRound(t, start, k), sh));
    }
  }

  /** The state after `t` was put at the end of queue `j` by thread `p`. */
  function WithTask(s: State, p: nat, t: Task, j: nat, sh: Shared): State
    requires Sized(s) && p < |s.others| && j < |s.queues|
  {
    Then(s, p, Idle, j, s.queues[j].(q := s.queues[j].q + [Some(t)]), sh,
         s.history.(place := s.history.place[t := Queued(j)], enqueued := s.history.enqueued + {t}))
  }

  lemma RoundPuts(s: State, p: nat, t: Task, start: nat, k: nat, sh: Shared)
    requires Sized(s) && p < |s.others| && k < |s.queues| && !Refuses(s.queues[RoundTarget(s, start, k)])
    ensures Leads(AtOther(s, p, TryRound(t, start, k), sh), OfOther(p, true), WithTask(s, p, t, RoundTarget(s, start, k), sh))
  {
    hide Leads;
    var j, step, h := RoundTarget(s, start, k), OfOther(p, true), s.history;
    var queue := s.queues[j];
    var locked := queue.(holder := Some(Outside(p)));
    var full := locked.(q := queue.q + [Some(t)]);
    var h1 := Record(h, Outside(p), Emplaces(t, j));
    var begin, t1 := AtOther(s, p, TryRound(t, start, k), sh), Then(s, p, Emplace(t, j), j, locked, sh, h);
    var t2 := Then(s, p, Unlock(j), j, full, sh, h1);
    OtherSteps(s, p, TryRound(t, start, k), sh, TryLock(t, start, k), sh);
    AtOtherIsThen(s, p, TryLock(t, start, k), sh, j);
    OuterGoes(s, p, TryLock(t, start, k), j, queue, sh, h, OuterMove(Emplace(t, j), locked, sh, Quiet));
    LeadsThen(begin, step, AtOther(s, p, TryLock(t, start, k), sh), t1);
    OuterGoes(s, p, Emplace(t, j), j, locked, sh, h, OuterMove(Unlock(j), full, sh, Emplaces(t, j)));
    LeadsThen(begin, step, t1, t2);
    OuterGoes(s, p, Unlock(j), j, full, sh, h1, OuterMove(Idle, full.(holder := None), sh, Quiet));
    LeadsThen(begin, step, t2, WithTask(s, p, t, j, sh));
  }

  /**
    * A push that runs alone while the gate is open puts its task at the end of the first queue that is neither closed
    * nor locked, counting from the shared index, which it moves on; nothing else has changed.
    */
  lemma PushAloneEnqueues(s: State, p: nat, t: Task, k: nat)
    requires Sized(s) && p < |s.others| && s.others[p] == ReadReject(t)
    requires s.shared.waiting == Open || s.shared.waiting == AllowIncoming
    requires k < |s.queues| && !Refuses(s.queues[RoundTarget(s, s.shared.index, k)])
    requires forall m | 0 <= m < k :: Refuses(s.queues[RoundTarget(s, s.shared.index, m)])
    ensures Leads(s, OfOther(p, true),
                  WithTask(s, p, t, RoundTarget(s, s.shared.index, k), s.shared.(index := s.shared.index + 1)))
  {
    hide Leads, Refuses;
    var step, sh, start := OfOther(p, true), s.shared, s.shared.index;
    var moved := sh.(index := start + 1);
    assert AtOther(s, p, ReadReject(t), sh) == s by { assert s.others[p := s.others[p]] == s.others; }
    OtherSteps(s, p, ReadReject(t), sh, ReadBlock(t), sh);
    OtherSteps(s, p, ReadBlock(t), sh, TakeIndex(t), sh);
    LeadsOn(s, step, AtOther(s, p, ReadBlock(t), sh), AtOther(s, p, TakeIndex(t), sh));
    OtherSteps(s, p, TakeIndex(t), sh, TryRound(t, start, 0), moved);
    LeadsOn(s, step, AtOther(s, p, TakeIndex(t), sh), AtOther(s, p, TryRound(t, start, 0), moved));
    RoundsPass(s, p, t, start, k, moved);
    LeadsOn(s, step, AtOther(s, p, TryRound(t, start, 0), moved), AtOther(s, p, TryRound(t, start, k), moved));
    RoundPuts(s, p, t, start, k, moved);
    LeadsOn(s, step, AtOther(s, p, TryRound(t, start, k), moved), WithTask(s, p, t, RoundTarget(s, start, k), moved));
  }

  // ---------------------------------------------------------------- wait

  lemma {:induction false} ScansQueues(s: State, p: nat, k: nat, status: WaitStatus, goal: set<Task>, sh: Shared)
    requires Sized(s) && p < |s.others| && k <= |s.queues| && forall j | 0 <= j < k :: s.queues[j].q == []
    ensures Leads(AtOther(s, p, ScanQueue(0, status, goal), sh), OfOther(p, true), AtOther(s, p, ScanQueue(k, status, goal), sh))
  {
    hide Leads;
    if k == 0 {
      LeadsToItself(AtOther(s, p, ScanQueue(0, status, goal), sh), OfOther(p, true));
    } else {
      ScansQueues(s, p, k - 1, status, goal, sh);
      OtherSteps(s, p, ScanQueue(k - 1, status, goal), sh, ScanQueue(k, status, goal), sh);
      LeadsOn(AtOther(s, p, ScanQueue(0, status, goal), sh), OfOther(p, true), AtOther(s, p, ScanQueue(k - 1, status, goal), sh),
              AtOther(s, p, ScanQueue(k, status, goal), sh));
    }
  }

  lemma {:induction false} ScansFlags(s: State, p: nat, k: nat, status: WaitStatus, goal: set<Task>, sh: Shared)
    requires Sized(s) && p < |s.others| && k <= |s.workers| && forall i | 0 <= i < k :: !s.workers[i].busy
    ensures Leads(AtOther(s, p, ScanBusy(0, status, goal), sh), OfOther(p, true), AtOther(s, p, ScanBusy(k, status, goal), sh))
  {
    hide Leads;
    if k == 0 {
      LeadsToItself(AtOther(s, p, ScanBusy(0, status, goal), sh), OfOther(p, true));
    } else {
      ScansFlags(s, p, k - 1, status, goal, sh);
      OtherSteps(s, p, ScanBusy(k - 1, status, goal), sh, ScanBusy(k, status, goal), sh);
      LeadsOn(AtOther(s, p, ScanBusy(0, status, goal), sh), OfOther(p, true), AtOther(s, p, ScanBusy(k - 1, status, goal), sh),
              AtOther(s, p, ScanBusy(k, status, goal), sh));
    }
  }

  /**
    * `wait` alone, with nothing queued and nobody busy, first announces its status, and returns with the gate open and
    * free again.
    */
  lemma WaitAloneReturns(s: State, p: nat, status: WaitStatus, goal: set<Task>)
    requires Sized(s) && p < |s.others| && s.others[p] == TryWait(status, goal) && s.shared.waitHolder == None
    requires (forall j | 0 <= j < |s.queues| :: s.queues[j].q == []) && forall i | 0 <= i < |s.workers| :: !s.workers[i].busy
    ensures Leads(s, OfOther(p, true), AtOther(s, p, ScanQueue(0, status, goal), s.shared.(waiting := status, waitHolder := Some(p))))
    ensures Leads(s, OfOther(p, true), AtOther(s, p, Returned(goal), s.shared.(waiting := Open)))
  {
    hide Leads;
    var step, sh := OfOther(p, true), s.shared;
    var announced := sh.(waiting := status, waitHolder := Some(p));
    WaitAnnounces(s, p, status, goal);
    WaitScans(s, p, status, goal, announced);
    LeadsOn(s, step, AtOther(s, p, ScanQueue(0, status, goal), announced), AtOther(s, p, ResetStatus(status, goal), announced));
    WaitLeaves(s, p, status, goal, announced);
    LeadsOn(s, step, AtOther(s, p, ResetStatus(status, goal), announced), AtOther(s, p, Returned(goal), sh.(waiting := Open)));
  }

  lemma WaitAnnounces(s: State, p: nat, status: WaitStatus, goal: set<Task>)
    requires Sized(s) && p < |s.others| && s.others[p] == TryWait(status, goal) && s.shared.waitHolder == None
    ensures Leads(s, OfOther(p, true), AtOther(s, p, ScanQueue(0, status, goal), s.shared.(waiting := status, waitHolder := Some(p))))
  {
    hide Leads;
    var held := s.shared.(waitHolder := Some(p));
    assert AtOther(s, p, TryWait(status, goal), s.shared) == s by { assert s.others[p := s.others[p]] == s.others; }
    OtherSteps(s, p, TryWait(status, goal), s.shared, SetStatus(status, goal), held);
    OtherSteps(s, p, SetStatus(status, goal), held, ScanQueue(0, status, goal), held.(waiting := status));
    LeadsOn(s, OfOther(p, true), AtOther(s, p, SetStatus(status, goal), held),
            AtOther(s, p, ScanQueue(0, status, goal), held.(waiting := status)));
  }

  lemma WaitScans(s: State, p: nat, status: WaitStatus, goal: set<Task>, sh: Shared)
    requires Sized(s) && p < |s.others|
    requires (forall j | 0 <= j < |s.queues| :: s.queues[j].q == []) && forall i | 0 <= i < |s.workers| :: !s.workers[i].busy
    ensures Leads(AtOther(s, p, ScanQueue(0, status, goal), sh), OfOther(p, true), AtOther(s, p, ResetStatus(status, goal), sh))
  {
    hide Leads;
    var step, n, begin := OfOther(p, true), |s.queues|, AtOther(s, p, ScanQueue(0, status, goal), sh);
    ScansQueues(s, p, n, status, goal, sh);
    OtherSteps(s, p, ScanQueue(n, status, goal), sh, ScanBusy(0, status, goal), sh);
    LeadsOn(begin, step, AtOther(s, p, ScanQueue(n, status, goal), sh), AtOther(s, p, ScanBusy(0, status, goal), sh));
    ScansFlags(s, p, n, status, goal, sh);
    LeadsOn(begin, step, AtOther(s, p, ScanBusy(0, status, goal), sh), AtOther(s, p, ScanBusy(n, status, goal), sh));
    OtherSteps(s, p, ScanBusy(n, status, goal), sh, ResetStatus(status, goal), sh);
    LeadsOn(begin, step, AtOther(s, p, ScanBusy(n, status, goal), sh), AtOther(s, p, ResetStatus(status, goal), sh));
  }

  lemma WaitLeaves(s: State, p: nat, status: WaitStatus, goal: set<Task>, sh: Shared)
    requires Sized(s) && p < |s.others|
    ensures Leads(AtOther(s, p, ResetStatus(status, goal), sh), OfOther(p, true),
                  AtOther(s, p, Returned(goal), sh.(waiting := Open, waitHolder := None)))
  {
    hide Leads;
    var reset := sh.(waiting := Open);
    OtherSteps(s, p, ResetStatus(status, goal), sh, LeaveWait(goal), reset);
    OtherSteps(s, p, LeaveWait(goal), reset, Returned(goal), reset.(waitHolder := None));
    LeadsOn(AtOther(s, p, ResetStatus(status, goal), sh), OfOther(p, true), AtOther(s, p, LeaveWait(goal), reset),
            AtOther(s, p, Returned(goal), reset.(waitHolder := None)));
  }

  // ---------------------------------------------------------------- stop

  /** The first `k` queues are closed. */
  function Closed(s: State, k: nat): (t: State)
    requires Sized(s)
    ensures Sized(t) && |t.queues| == |s.queues|
    ensures forall j | 0 <= j < |s.queues| :: t.queues[j] == if j < k then s.queues[j].(done := true) else s.queues[j]
    ensures t == s.(queues := t.queues)
  {
    s.(queues := seq(|s.queues|, j requires 0 <= j < |s.queues| => if j < k then s.queues[j].(done := true) else s.queues[j]))
  }

  lemma ClosesOne(s: State, p: nat, k: nat, sh: Shared)
    requires Sized(s) && p < |s.others| && k < |s.queues| && s.queues[k].holder == None
    ensures Leads(AtOther(Closed(s, k), p, StopLock(k), sh), OfOther(p, true), AtOther(Closed(s, k + 1), p, StopLock(k + 1), sh))
  {
    hide Leads;
    var c, step, queue := Closed(s, k), OfOther(p, true), s.queues[k];
    var locked := queue.(holder := Some(Outside(p)));
    var t1 := Then(c, p, StopHeld(k), k, locked, sh, s.history);
    AtOtherIsThen(c, p, StopLock(k), sh, k);
    OuterGoes(c, p, StopLock(k), k, queue, sh, s.history, OuterMove(StopHeld(k), locked, sh, Quiet));
    LeadsByOne(AtOther(c, p, StopLock(k), sh), step, t1);
    OuterGoes(c, p, StopHeld(k), k, locked, sh, s.history, OuterMove(StopLock(k + 1), queue.(done := true), sh, Quiet));
    assert Closed(s, k + 1).queues == c.queues[k := queue.(done := true)];
    LeadsThen(AtOther(c, p, StopLock(k), sh), step, t1, AtOther(Closed(s, k + 1), p, StopLock(k + 1), sh));
  }

  lemma {:induction false} ClosesQueues(s: State, p: nat, k: nat, sh: Shared)
    requires Sized(s) && p < |s.others| && k <= |s.queues| && NobodyLocks(s)
    ensures Leads(AtOther(Closed(s, 0), p, StopLock(0), sh), OfOther(p, true), AtOther(Closed(s, k), p, StopLock(k), sh))
  {
    hide Leads;
    if k == 0 {
      LeadsToItself(AtOther(Closed(s, 0), p, StopLock(0), sh), OfOther(p, true));
    } else {
      ClosesQueues(s, p, k - 1, sh);
      ClosesOne(s, p, k - 1, sh);
      LeadsOn(AtOther(Closed(s, 0), p, StopLock(0), sh), OfOther(p, true), AtOther(Closed(s, k - 1), p, StopLock(k - 1), sh),
              AtOther(Closed(s, k), p, StopLock(k), sh));
    }
  }

  /** `stop` alone raises the flag first, and then closes every queue. */
  lemma StopAloneClosesAll(s: State, p: nat)
    requires Sized(s) && p < |s.others| && s.others[p] == RaiseFlag && NobodyLocks(s)
    ensures var stopped := s.shared.(stopped := true);
            && Next(s, OfOther(p, true)) == Some(AtOther(s, p, StopLock(0), stopped))
            && Leads(s, OfOther(p, true), AtOther(Closed(s, |s.queues|), p, Idle, stopped))
  {
    hide Leads;
    var step, n, stopped := OfOther(p, true), |s.queues|, s.shared.(stopped := true);
    assert s.others[p := s.others[p]] == s.others && Closed(s, 0).queues == s.queues;
    FlagIsRaised(s, p);
    LeadsByOne(s, step, AtOther(s, p, StopLock(0), stopped));
    ClosesQueues(s, p, n, stopped);
    LeadsOn(s, step, AtOther(s, p, StopLock(0), stopped), AtOther(Closed(s, n), p, StopLock(n), stopped));
    OtherSteps(Closed(s, n), p, StopLock(n), stopped, Idle, stopped);
    LeadsOn(s, step, AtOther(Closed(s, n), p, StopLock(n), stopped), AtOther(Closed(s, n), p, Idle, stopped));
  }

  lemma FlagIsRaised(s: State, p: nat)
    requires Sized(s) && p < |s.others| && s.others[p] == RaiseFlag
    ensures Next(s, OfOther(p, true)) == Some(AtOther(s, p, StopLock(0), s.shared.(stopped := true)))
  {
    var stopped := s.shared.(stopped := true);
    ThenIsSame(s, p, 0);
    AtOtherIsThen(s, p, StopLock(0), stopped, 0);
    OuterGoesOn(s, p, RaiseFlag, 0, s.queues[0], s.shared, s.history, StopLock(0), stopped);
  }

  // ---------------------------------------------------------------- how calls begin

  /** An idle thread outside can enter each call; `wait` remembers what is enqueued, and a pushed task is in its hand. */
  lemma CallsBegin(s: State, p: nat, t: Task, status: WaitStatus)
    requires Sized(s) && p < |s.others| && s.others[p] == Idle
    ensures Next(s, Enter(p, Stop)) == Some(AtOther(s, p, RaiseFlag, s.shared))
    ensures Next(s, Enter(p, Wait(status))) == Some(AtOther(s, p, TryWait(status, s.history.enqueued), s.shared))
    ensures t !in s.history.place ==>
              var begun := AtOther(s, p, ReadReject(t), s.shared);
              Next(s, Enter(p, Push(t))) == Some(begun.(history := s.history.(place := s.history.place[t := Pushing(p)])))
  {
  }
}
