/** What holds in every reachable state of the executor, and over every run of it. */
module ExecutorTheorems {
  import opened Options
  import opened Executor
  import opened ExecutorLocks
  import opened ExecutorTasks
  import opened ExecutorWaits

  // ---------------------------------------------------------------- m_wait and waiting_

  predicate HoldsGate(pc: OuterPc) {
    pc.HoldWait? || pc.OtherDone? || pc.SetStatus? || pc.LeaveWait? || Announces(pc)
  }

  /** Between setting `waiting_` and setting it back. */
  predicate Announces(pc: OuterPc) {
    pc.ScanQueue? || pc.QueueFull? || pc.ScanBusy? || pc.WorkerBusy? || pc.ResetStatus?
  }

  /** `m_wait` has the one owner it says, and `waiting_` is what that thread has announced. */
  predicate GateFits(s: State) {
    && (forall p | 0 <= p < |s.others| :: HoldsGate(s.others[p]) <==> s.shared.waitHolder == Some(p))
    && (s.shared.waitHolder.Some? ==> s.shared.waitHolder.value < |s.others|)
    && s.shared.waiting == Announced(s)
  }

  function Announced(s: State): WaitStatus {
    if s.shared.waitHolder.Some? && s.shared.waitHolder.value < |s.others| && Announces(s.others[s.shared.waitHolder.value])
    then s.others[s.shared.waitHolder.value].status else Open
  }

  /** How a step of thread `p` may change `m_wait` and `waiting_`. */
  predicate GateMove(pc: OuterPc, pc': OuterPc, sh: Shared, sh': Shared, p: nat) {
    && (HoldsGate(pc') <==> sh'.waitHolder == Some(p))
    && (sh'.waitHolder == sh.waitHolder || (sh.waitHolder == None && sh'.waitHolder == Some(p)) || (HoldsGate(pc) && sh'.waitHolder == None))
    && (if Announces(pc') then sh'.waiting == pc'.status
        else if HoldsGate(pc) || HoldsGate(pc') then sh'.waiting == Open
        else sh'.waiting == sh.waiting)
  }

  lemma OuterMovesGate(pc: OuterPc, queue: Queue, busy: bool, sh: Shared, p: nat, j: nat, n: nat, choice: bool, m: OuterMove)
    requires MoveOuter(pc, queue, busy, sh, p, j, n, choice) == Some(m)
    requires HoldsGate(pc) <==> sh.waitHolder == Some(p)
    requires Announces(pc) ==> sh.waiting == pc.status
    requires (HoldsGate(pc) && !Announces(pc)) || sh.waitHolder == None ==> sh.waiting == Open
    ensures GateMove(pc, m.pc, sh, m.shared, p)
  {
  }

  lemma OuterStepGate(s: State, p: nat, choice: bool)
    requires Sized(s) && GateFits(s) && p < |s.others| && OuterStep(s, p, choice).Some?
    ensures GateFits(OuterStep(s, p, choice).value)
  {
    hide MoveOuter, Record, Announces, HoldsGate;
    var j := OuterTarget(s.others[p], |s.queues|);
    var m := MoveOuter(s.others[p], s.queues[j], s.workers[j].busy, s.shared, p, j, |s.queues|, choice).value;
    AnnouncersHold(s.others[p]);
    AnnouncersHold(m.pc);
    OuterMovesGate(s.others[p], s.queues[j], s.workers[j].busy, s.shared, p, j, |s.queues|, choice, m);
  }

  lemma AnnouncersHold(pc: OuterPc)
    ensures Announces(pc) ==> HoldsGate(pc)
  {
  }

  lemma StepKeepsGate(s: State, step: Step)
    requires Sized(s) && GateFits(s) && Next(s, step).Some?
    ensures GateFits(Next(s, step).value)
  {
    hide OuterStep, MoveWorker, Record;
    if step.OfOther? {
      OuterStepGate(s, step.p, step.choice);
    }
  }

  // ---------------------------------------------------------------- every reachable state

  ghost predicate Fits(s: State) { LocksFit(s) && TasksFit(s) && WaitsFit(s) && GateFits(s) }

  lemma InitFits(n: nat, outside: nat)
    requires n > 0
    ensures Fits(Init(n, outside))
  {
  }

  lemma StepKeepsAll(s: State, step: Step)
    requires Sized(s) && Fits(s) && Next(s, step).Some?
    ensures Fits(Next(s, step).value)
  {
    hide LocksFit, TasksFit, WaitsFit, GateFits, Next;
    StepFits(s, step);
    StepKeepsTasks(s, step);
    StepKeepsWaits(s, step);
    StepKeepsGate(s, step);
  }

  lemma {:induction false} RunKeepsAll(s: State, steps: seq<Step>)
    requires Sized(s) && Fits(s) && Run(s, steps).Some?
    ensures Fits(Run(s, steps).value)
    decreases |steps|
  {
    hide Fits, Next;
    if steps != [] {
      StepKeepsAll(s, steps[0]);
      RunKeepsAll(Next(s, steps[0]).value, steps[1..]);
    }
  }

  lemma ReachableFits(s: State)
    requires Reachable(s)
    ensures Fits(s)
  {
    hide Fits, Run;
    var n: nat, outside: nat, steps :| n > 0 && Run(Init(n, outside), steps) == Some(s);
    InitFits(n, outside);
    RunKeepsAll(Init(n, outside), steps);
  }

  // ---------------------------------------------------------------- the results

  /**
    * Each task that was ever submitted is in exactly one place: the hand of the thread that pushes it, one queue (and
    * there once), the hand of one worker, or it is finished, dropped or rejected; and only such tasks are anywhere.
    */
  lemma EveryTaskInOnePlace(s: State, t: Task)
    requires Reachable(s)
    ensures t in s.history.place <==> exists place :: At(s, place, t)
    ensures forall place, place' :: At(s, place, t) && At(s, place', t) ==> place == place'
    ensures forall j, a, b | 0 <= j < |s.queues| && 0 <= a < |s.queues[j].q| && 0 <= b < |s.queues[j].q| ::
              s.queues[j].q[a] == s.queues[j].q[b] == Some(t) ==> a == b
    ensures t in s.history.dropped ==> s.shared.stopped
  {
    ReachableFits(s);
    if t in s.history.place {
      assert At(s, s.history.place[t], t);
    }
    assert forall j | 0 <= j < |s.queues| :: Distinct(s.queues[j].q);
  }

  predicate Runs(s: State, i: nat, t: Task) { i < |s.workers| && s.workers[i].pc == Running(Some(t)) }

  /** No task is called twice; the tasks called are those finished and those running. */
  lemma NoTaskCalledTwice(s: State)
    requires Reachable(s)
    ensures NoRepeats(s.history.calls)
    ensures forall t :: t in s.history.calls <==> t in s.history.finished || exists i: nat :: Runs(s, i, t)
  {
    ReachableFits(s);
    hide LocksFit, WaitsFit, GateFits, HistoryFits, PlacesFit, NoRepeats;
    forall t ensures t in s.history.calls <==> t in s.history.finished || exists i: nat :: Runs(s, i, t) {
      CalledIsFinishedOrRunning(s, t);
    }
  }

  lemma CalledIsFinishedOrRunning(s: State, t: Task)
    requires PlacesFit(s)
    ensures Called(s, t) <==> t in s.history.finished || exists i: nat :: Runs(s, i, t)
  {
    assert At(s, Finished, t) <==> t in s.history.place && s.history.place[t] == Finished;
    if Called(s, t) && s.history.place[t].Held? {
      assert At(s, s.history.place[t], t);
      assert Runs(s, s.history.place[t].i, t);
    }
    if i: nat :| Runs(s, i, t) {
      assert At(s, Held(i), t);
    }
  }

  /**
    * No worker calls an empty task, takes a moved-from one, or pops from an empty queue; a failed `pop` happens only
    * after the stop; and a lock is held by at most one thread.
    */
  lemma WorkersAreSound(s: State, i: nat)
    requires Reachable(s) && i < |s.workers|
    ensures var pc := s.workers[i].pc;
            && pc != Running(None) && (pc == Got(None) ==> s.shared.stopped)
            && (pc.Locked? ==> pc.j < |s.queues| && (s.queues[pc.j].q != [] ==> s.queues[pc.j].q[0] != None))
            && (pc.Marked? ==> pc.j < |s.queues| && s.queues[pc.j].q != [] && s.queues[pc.j].q[0] == None)
    ensures forall k | 0 <= k < |s.workers| && WorkerLock(s.workers[k].pc).Some? ::
              WorkerLock(s.workers[k].pc) == WorkerLock(s.workers[i].pc) ==> k == i
    ensures forall p | 0 <= p < |s.others| && OuterLock(s.others[p]).Some? ::
              OuterLock(s.others[p]) != WorkerLock(s.workers[i].pc)
    ensures forall p, p' | 0 <= p < p' < |s.others| && OuterLock(s.others[p]).Some? ::
              OuterLock(s.others[p]) != OuterLock(s.others[p'])
  {
    ReachableFits(s);
    assert WorkerFits(s.workers[i], i, s.queues, s.shared.stopped);
    if s.workers[i].pc.Locked? {
      assert QueueFits(s.queues[s.workers[i].pc.j], s.workers[i].pc.j, s.workers, s.shared.stopped);
    }
  }

  /** `push` blocks or rejects only while a thread is inside the scan of `wait` with that status. */
  lemma GateIsOpenOutsideWaits(s: State)
    requires Reachable(s)
    ensures s.shared.waiting != Open ==>
              exists p | 0 <= p < |s.others| :: Announces(s.others[p]) && s.others[p].status == s.shared.waiting
    ensures forall p, p' | 0 <= p < p' < |s.others| :: !(HoldsGate(s.others[p]) && HoldsGate(s.others[p']))
  {
    ReachableFits(s);
    if s.shared.waiting != Open {
      assert Announces(s.others[s.shared.waitHolder.value]);
    }
  }

  // ---------------------------------------------------------------- wait, over runs

  /** The thread is inside a call of `wait` that remembers `goal`, or has left it. */
  predicate Remembers(pc: OuterPc, goal: set<Task>) {
    match pc
    case TryWait(_, g) => g == goal
    case SetStatus(_, g) => g == goal
    case ScanQueue(_, _, g) => g == goal
    case QueueFull(_, _, g) => g == goal
    case ScanBusy(_, _, g) => g == goal
    case WorkerBusy(_, _, g) => g == goal
    case ResetStatus(_, g) => g == goal
    case LeaveWait(g) => g == goal
    case Returned(g) => g == goal
    case AwaitOther => true
    case OtherDone => true
    case Idle => true
    case _ => false
  }

  predicate NoCallBy(steps: seq<Step>, p: nat) {
    forall k | 0 <= k < |steps| :: !(steps[k].Enter? && steps[k].p == p)
  }

  lemma StepRemembers(s: State, step: Step, p: nat, goal: set<Task>)
    requires Sized(s) && Next(s, step).Some? && p < |s.others| && Remembers(s.others[p], goal)
    requires !(step.Enter? && step.p == p)
    ensures Remembers(Next(s, step).value.others[p], goal)
  {
    hide MoveWorker, Record;
  }

  lemma {:induction false} RunRemembers(s: State, steps: seq<Step>, p: nat, goal: set<Task>)
    requires Sized(s) && Run(s, steps).Some? && p < |s.others| && Remembers(s.others[p], goal) && NoCallBy(steps, p)
    ensures p < |Run(s, steps).value.others| && Remembers(Run(s, steps).value.others[p], goal)
    decreases |steps|
  {
    hide Next, Remembers;
    if steps != [] {
      StepRemembers(s, steps[0], p, goal);
      RunRemembers(Next(s, steps[0]).value, steps[1..], p, goal);
    }
  }

  lemma {:induction false} RunsCompose(s: State, first: seq<Step>, second: seq<Step>)
    requires Sized(s) && Run(s, first).Some?
    ensures Run(s, first + second) == Run(Run(s, first).value, second)
    decreases |first|
  {
    hide Next;
    if first == [] {
      assert first + second == second;
    } else {
      RunsCompose(Next(s, first[0]).value, first[1..], second);
      assert (first + second)[1..] == first[1..] + second;
    }
  }

  lemma ReachableRun(s: State, steps: seq<Step>)
    requires Reachable(s) && Sized(s) && Run(s, steps).Some?
    ensures Reachable(Run(s, steps).value)
  {
    var n: nat, outside: nat, before :| n > 0 && Run(Init(n, outside), before) == Some(s);
    RunsCompose(Init(n, outside), before, steps);
  }

  lemma ReturnedMeansFinished(s: State, p: nat)
    requires Reachable(s) && p < |s.others| && s.others[p].Returned? && !s.shared.stopped
    ensures s.others[p].goal <= s.history.finished
  {
    ReachableFits(s);
    assert WaitFits(s, s.others[p]);
    forall t | t in s.others[p].goal ensures t in s.history.finished {
      assert Done(s, t);
      assert At(s, Finished, t);
    }
  }

  /**
    * A thread outside the executor that calls `wait`, gets `m_wait` and returns while nothing has stopped the executor
    * returns only after every task enqueued before the call has finished, whatever the other threads do in between.
    */
  lemma WaitReturnsAfterAllTasks(s: State, p: nat, status: WaitStatus, steps: seq<Step>)
    requires Reachable(s) && Sized(s) && p < |s.others| && s.others[p] == Idle && NoCallBy(steps, p)
    requires var run := Run(s, [Enter(p, Wait(status))] + steps);
             run.Some? && p < |run.value.others| && run.value.others[p].Returned? && !run.value.shared.stopped
    ensures s.history.enqueued <= Run(s, [Enter(p, Wait(status))] + steps).value.history.finished
  {
    hide Reachable;
    var call := [Enter(p, Wait(status))];
    var s1 := Next(s, call[0]).value;
    assert (call + steps)[1..] == steps;
    assert Run(s, call + steps) == Run(s1, steps);
    assert Remembers(s1.others[p], s.history.enqueued);
    RunRemembers(s1, steps, p, s.history.enqueued);
    ReachableRun(s, call + steps);
    ReturnedMeansFinished(Run(s1, steps).value, p);
  }
}
