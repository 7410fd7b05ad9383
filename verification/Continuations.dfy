/** `Future::then` against `SharedState::setExecuted`, as an interleaved step system of any number of threads. */
module Continuations {
  import opened Options

  type Continuation = nat

  // ---------------------------------------------------------------- states and steps

  datatype Pc =
    | Idle
    // then
    | ReadSet(c: Continuation)      // the unlocked check of `set`
    | SubmitNow(c: Continuation)
    | Lock(c: Continuation)
    | Recheck(c: Continuation)      // holds the mutex
    | SubmitLocked(c: Continuation) // holds the mutex
    | Append(c: Continuation)       // holds the mutex
    | Unlock                        // holds the mutex
    // setExecuted and notice
    | Exchange
    | LockSweep
    | Sweep(k: nat)                 // holds the mutex; calls callback `k`
    | Clear

  /** How far the one thread that set the flag has come. */
  datatype Progress = NotSet | Won(p: nat) | At(p: nat, k: nat) | Swept(p: nat) | Over

  datatype Cell = Cell(set_: bool, callbacks: seq<Continuation>, holder: Option<nat>, progress: Progress)

  /** Where a continuation is. */
  datatype Place = InHand(p: nat) | Listed | Submitted

  /** `submitted` lists what was pushed to the executor, in order; `place` follows every continuation registered. */
  datatype State = State(cell: Cell, threads: seq<Pc>, submitted: seq<Continuation>, place: map<Continuation, Place>)

  datatype Event = Quiet | Registers(c: Continuation) | Lists(c: Continuation) | Submits(c: Continuation)

  datatype Move = Move(pc: Pc, cell: Cell, event: Event)

  /** The next step of thread `p`, if it has one. */
  function MoveOf(pc: Pc, cell: Cell, p: nat): Option<Move> {
    match pc
    case Idle => None
    case ReadSet(c) => Some(Move(if cell.set_ then SubmitNow(c) else Lock(c), cell, Quiet))
    case SubmitNow(c) => Some(Move(Idle, cell, Submits(c)))
    case Lock(c) => if cell.holder.None? then Some(Move(Recheck(c), cell.(holder := Some(p)), Quiet)) else None
    case Recheck(c) => Some(Move(if cell.set_ then SubmitLocked(c) else Append(c), cell, Quiet))
    case SubmitLocked(c) => Some(Move(Unlock, cell, Submits(c)))
    case Append(c) => Some(Move(Unlock, cell.(callbacks := cell.callbacks + [c]), Lists(c)))
    case Unlock => Some(Move(Idle, cell.(holder := None), Quiet))
    case Exchange =>
      if cell.set_ then Some(Move(Idle, cell, Quiet))
      else Some(Move(LockSweep, cell.(set_ := true, progress := Won(p)), Quiet))
    case LockSweep =>
      if cell.holder.None? then Some(Move(Sweep(0), cell.(holder := Some(p), progress := At(p, 0)), Quiet)) else None
    case Sweep(k) =>
      if k < |cell.callbacks| then Some(Move(Sweep(k + 1), cell.(progress := At(p, k + 1)), Submits(cell.callbacks[k])))
      else Some(Move(Clear, cell.(holder := None, progress := Swept(p)), Quiet))
    case Clear => Some(Move(Idle, cell.(callbacks := [], progress := Over), Quiet))
  }

  function Record(s: State, p: nat, event: Event): State {
    match event
    case Quiet => s
    case Registers(c) => s.(place := s.place[c := InHand(p)])
    case Lists(c) => s.(place := s.place[c := Listed])
    case Submits(c) => s.(place := s.place[c := Submitted], submitted := s.submitted + [c])
  }

  datatype Step = Go(p: nat) | Then(p: nat, c: Continuation) | SetExecuted(p: nat)

  /** The state after a step, if the step is possible; each continuation registered is a new one. */
  function Next(s: State, step: Step): Option<State> {
    if step.p >= |s.threads| then None
    else
      var p, pc := step.p, s.threads[step.p];
      match step
      case Go(_) =>
        (match MoveOf(pc, s.cell, p)
         case None => None
         case Some(m) => Some(Record(s.(threads := s.threads[p := m.pc], cell := m.cell), p, m.event)))
      case Then(_, c) =>
        if pc != Idle || c in s.place then None
        else Some(Record(s.(threads := s.threads[p := ReadSet(c)]), p, Registers(c)))
      case SetExecuted(_) => if pc != Idle then None else Some(s.(threads := s.threads[p := Exchange]))
  }

  function Run(s: State, steps: seq<Step>): Option<State>
    decreases |steps|
  {
    if steps == [] then Some(s)
    else
      match Next(s, steps[0])
      case None => None
      case Some(s') => Run(s', steps[1..])
  }

  function Init(threads: nat): (s: State)
    ensures |s.threads| == threads
    ensures forall p | 0 <= p < threads :: s.threads[p] == Idle
  {
    State(Cell(false, [], None, NotSet), seq(threads, _ => Idle), [], map[])
  }

  ghost predicate Reachable(s: State) {
    exists threads: nat, steps: seq<Step> :: Run(Init(threads), steps) == Some(s)
  }

  // ---------------------------------------------------------------- the invariant of the threads

  predicate Holding(pc: Pc) { pc.Recheck? || pc.SubmitLocked? || pc.Append? || pc.Unlock? || pc.Sweep? }

  /** What a thread knows about the cell. */
  predicate PcFits(pc: Pc, cell: Cell, p: nat) {
    && (Holding(pc) ==> cell.holder == Some(p))
    && (pc.SubmitNow? || pc.SubmitLocked? ==> cell.set_)
    && (pc.Append? ==> cell.progress.NotSet? || cell.progress.Won?)
    && (pc.LockSweep? <==> cell.progress == Won(p))
    && (pc.Sweep? ==> cell.progress == At(p, pc.k)) && (cell.progress.At? && cell.progress.p == p ==> pc.Sweep?)
    && (pc.Clear? <==> cell.progress == Swept(p))
  }

  predicate CellFits(cell: Cell) {
    && (cell.set_ <==> !cell.progress.NotSet?)
    && (cell.progress.At? ==> cell.progress.k <= |cell.callbacks| && cell.holder == Some(cell.progress.p))
    && (cell.progress.Over? ==> cell.callbacks == [])
  }

  predicate ThreadsFit(s: State) {
    CellFits(s.cell) && forall p | 0 <= p < |s.threads| :: PcFits(s.threads[p], s.cell, p)
  }

  lemma MoveFits(pc: Pc, cell: Cell, p: nat, m: Move)
    requires CellFits(cell) && PcFits(pc, cell, p) && MoveOf(pc, cell, p) == Some(m)
    ensures CellFits(m.cell) && PcFits(m.pc, m.cell, p)
  {
  }

  lemma OtherFits(pc: Pc, q: nat, mover: Pc, cell: Cell, p: nat, m: Move)
    requires CellFits(cell) && PcFits(mover, cell, p) && MoveOf(mover, cell, p) == Some(m) && PcFits(pc, cell, q) && p != q
    ensures PcFits(pc, m.cell, q)
  {
  }

  lemma StepKeepsThreads(s: State, step: Step)
    requires ThreadsFit(s) && Next(s, step).Some?
    ensures ThreadsFit(Next(s, step).value)
  {
    if step.Go? {
      hide MoveOf, PcFits, CellFits;
      var p := step.p;
      var m := MoveOf(s.threads[p], s.cell, p).value;
      MoveFits(s.threads[p], s.cell, p, m);
      forall q | 0 <= q < |s.threads| && q != p ensures PcFits(s.threads[q], m.cell, q) {
        OtherFits(s.threads[q], q, s.threads[p], s.cell, p, m);
      }
    }
  }

  // ---------------------------------------------------------------- the invariant of the continuations

  /** The callbacks that the sweep has not called yet. */
  function Pending(cell: Cell): seq<Continuation> {
    match cell.progress
    case At(_, k) => if k <= |cell.callbacks| then cell.callbacks[k..] else []
    case Swept(_) => []
    case _ => cell.callbacks
  }

  function Hand(pc: Pc): Option<Continuation> {
    match pc
    case ReadSet(c) => Some(c)
    case SubmitNow(c) => Some(c)
    case Lock(c) => Some(c)
    case Recheck(c) => Some(c)
    case SubmitLocked(c) => Some(c)
    case Append(c) => Some(c)
    case _ => None
  }

  predicate Is(s: State, place: Place, c: Continuation) {
    match place
    case InHand(p) => p < |s.threads| && Hand(s.threads[p]) == Some(c)
    case Listed => c in Pending(s.cell)
    case Submitted => c in s.submitted
  }

  predicate NoRepeats(cs: seq<Continuation>) { forall a, b | 0 <= a < b < |cs| :: cs[a] != cs[b] }

  ghost predicate PlacesFit(s: State) {
    && (forall place, c :: Is(s, place, c) <==> c in s.place && s.place[c] == place)
    && NoRepeats(Pending(s.cell)) && NoRepeats(s.submitted) && (s.submitted != [] ==> s.cell.set_)
  }

  /** What a step of one thread does to its hand and to the pending callbacks. */
  predicate Moves(hand: Option<Continuation>, hand': Option<Continuation>, pending: seq<Continuation>, pending': seq<Continuation>, event: Event) {
    match event
    case Quiet => hand' == hand && pending' == pending
    case Registers(c) => hand == None && hand' == Some(c) && pending' == pending
    case Lists(c) => hand == Some(c) && hand' == None && pending' == pending + [c]
    case Submits(c) =>
      hand' == None && ((hand == Some(c) && pending' == pending) || (hand == None && pending == [c] + pending'))
  }

  lemma MoveMoves(pc: Pc, cell: Cell, p: nat, m: Move)
    requires CellFits(cell) && PcFits(pc, cell, p) && MoveOf(pc, cell, p) == Some(m)
    ensures Moves(Hand(pc), Hand(m.pc), Pending(cell), Pending(m.cell), m.event)
    ensures (m.event.Submits? ==> cell.set_) && (cell.set_ ==> m.cell.set_)
  {
  }

  /** A step of thread `p`, seen from the continuations. */
  predicate PlaceStep(s: State, s': State, p: nat, event: Event) {
    && p < |s.threads| == |s'.threads| && s'.threads == s.threads[p := s'.threads[p]]
    && Moves(Hand(s.threads[p]), Hand(s'.threads[p]), Pending(s.cell), Pending(s'.cell), event)
    && s'.place == Record(s, p, event).place && s'.submitted == Record(s, p, event).submitted
    && (event.Submits? ==> s.cell.set_) && (s.cell.set_ ==> s'.cell.set_)
    && (event.Registers? ==> event.c !in s.place)
  }

  lemma StepIsPlaceStep(s: State, step: Step) returns (event: Event)
    requires ThreadsFit(s) && Next(s, step).Some?
    ensures PlaceStep(s, Next(s, step).value, step.p, event)
  {
    match step
    case Go(p) =>
      hide MoveOf, PcFits, CellFits, Pending, Hand, Moves;
      var m := MoveOf(s.threads[p], s.cell, p).value;
      event := m.event;
      MoveMoves(s.threads[p], s.cell, p, m);
    case Then(_, c) => event := Registers(c);
    case SetExecuted(_) => event := Quiet;
  }

  lemma PendingAfter(s: State, s': State, p: nat, event: Event)
    requires PlacesFit(s) && PlaceStep(s, s', p, event)
    ensures NoRepeats(Pending(s'.cell)) && NoRepeats(s'.submitted)
    ensures forall c :: c in Pending(s'.cell) <==>
              if event == Submits(c) then false else if event == Lists(c) then true else c in Pending(s.cell)
  {
    hide Pending, Hand;
    if !event.Quiet? {
      var c := event.c;
      assert Is(s, InHand(p), c) <==> Hand(s.threads[p]) == Some(c);
      assert Is(s, Listed, c) <==> c in Pending(s.cell);
      assert Is(s, Submitted, c) <==> c in s.submitted;
      if event.Submits? && Hand(s.threads[p]) == None {
        assert Pending(s.cell)[0] == c;
        assert Pending(s'.cell) == Pending(s.cell)[1..];
      }
    }
  }

  lemma PlaceMoves(s: State, s': State, p: nat, event: Event, place: Place, c: Continuation)
    requires PlacesFit(s) && PlaceStep(s, s', p, event)
    ensures Is(s', place, c) <==> c in s'.place && s'.place[c] == place
  {
    hide Pending, Hand;
    PendingAfter(s, s', p, event);
    assert Is(s, place, c) <==> c in s.place && s.place[c] == place;
    assert Is(s, InHand(p), c) <==> c in s.place && s.place[c] == InHand(p);
    assert Is(s, Listed, c) <==> c in s.place && s.place[c] == Listed;
  }

  lemma StepKeepsPlaces(s: State, step: Step)
    requires ThreadsFit(s) && PlacesFit(s) && Next(s, step).Some?
    ensures PlacesFit(Next(s, step).value)
  {
    hide Next, Moves, Hand, Pending;
    var s' := Next(s, step).value;
    var event := StepIsPlaceStep(s, step);
    PendingAfter(s, s', step.p, event);
    forall place, c ensures Is(s', place, c) <==> c in s'.place && s'.place[c] == place {
      PlaceMoves(s, s', step.p, event, place, c);
    }
  }

  // ---------------------------------------------------------------- the results

  lemma {:induction false} RunKeepsAll(s: State, steps: seq<Step>)
    requires ThreadsFit(s) && PlacesFit(s) && Run(s, steps).Some?
    ensures ThreadsFit(Run(s, steps).value) && PlacesFit(Run(s, steps).value)
    decreases |steps|
  {
    hide ThreadsFit, PlacesFit, Next;
    if steps != [] {
      StepKeepsThreads(s, steps[0]);
      StepKeepsPlaces(s, steps[0]);
      RunKeepsAll(Next(s, steps[0]).value, steps[1..]);
    }
  }

  lemma ReachableFits(s: State)
    requires Reachable(s)
    ensures ThreadsFit(s) && PlacesFit(s)
  {
    var threads: nat, steps :| Run(Init(threads), steps) == Some(s);
    assert ThreadsFit(Init(threads)) && PlacesFit(Init(threads));
    hide Run, ThreadsFit, PlacesFit;
    RunKeepsAll(Init(threads), steps);
  }

  /** No continuation is submitted twice, and none before the state is set. */
  lemma SubmittedAtMostOnceAfterSet(s: State)
    requires Reachable(s)
    ensures NoRepeats(s.submitted) && (s.submitted != [] ==> s.cell.set_)
    ensures forall c | c in s.submitted :: c in s.place
  {
    ReachableFits(s);
    forall c | c in s.submitted ensures c in s.place {
      assert Is(s, Submitted, c);
    }
  }

  /** A continuation registered is in the hand of one thread, waiting in the list, or submitted; and only in one of these. */
  lemma EveryContinuationInOnePlace(s: State, c: Continuation)
    requires Reachable(s)
    ensures c in s.place <==> exists place :: Is(s, place, c)
    ensures forall place, place' :: Is(s, place, c) && Is(s, place', c) ==> place == place'
  {
    ReachableFits(s);
    if c in s.place {
      assert Is(s, s.place[c], c);
    }
  }

  predicate Quiescent(s: State) { forall p | 0 <= p < |s.threads| :: s.threads[p] == Idle }

  /** The thread that sets the flag is one of the threads. */
  predicate WinnerExists(s: State) {
    s.cell.progress.Won? || s.cell.progress.At? || s.cell.progress.Swept? ==> s.cell.progress.p < |s.threads|
  }

  lemma {:induction false} RunKeepsWinner(s: State, steps: seq<Step>)
    requires WinnerExists(s) && Run(s, steps).Some?
    ensures WinnerExists(Run(s, steps).value)
    decreases |steps|
  {
    if steps != [] {
      hide Record;
      StepKeepsWinner(s, steps[0]);
      RunKeepsWinner(Next(s, steps[0]).value, steps[1..]);
    }
  }

  lemma StepKeepsWinner(s: State, step: Step)
    requires WinnerExists(s) && Next(s, step).Some?
    ensures WinnerExists(Next(s, step).value)
  {
  }

  /**
    * Once no thread is inside a call: if the state was set, every continuation registered has been submitted, exactly
    * once; if it was not, every one still waits in the list, and none has been submitted.
    */
  lemma AllSubmittedAtRest(s: State)
    requires Reachable(s) && Quiescent(s)
    ensures if s.cell.set_ then forall c :: c in s.place <==> c in s.submitted
            else s.submitted == [] && forall c :: c in s.place <==> c in s.cell.callbacks
    ensures NoRepeats(s.submitted)
  {
    ReachableFits(s);
    var threads: nat, steps :| Run(Init(threads), steps) == Some(s);
    RunKeepsWinner(Init(threads), steps);
    hide Run, PlacesFit, ThreadsFit, Quiescent;
    RestingProgress(s);
    forall c ensures c in s.place ==> Is(s, if s.cell.set_ then Submitted else Listed, c) {
      if c in s.place {
        RestingPlace(s, c);
      }
    }
    forall c ensures (c in s.submitted ==> c in s.place) && (c in Pending(s.cell) ==> c in s.place) {
      PlacesMean(s, c);
    }
    SubmittedAtMostOnceAfterSet(s);
  }

  lemma RestingProgress(s: State)
    requires ThreadsFit(s) && WinnerExists(s) && Quiescent(s)
    ensures s.cell.progress.NotSet? || s.cell.progress.Over?
    ensures s.cell.set_ <==> s.cell.progress.Over?
  {
    var progress := s.cell.progress;
    assert progress.NotSet? || progress.Over? || (s.threads[progress.p] == Idle && PcFits(Idle, s.cell, progress.p));
  }

  lemma RestingPlace(s: State, c: Continuation)
    requires PlacesFit(s) && ThreadsFit(s) && Quiescent(s) && (s.cell.progress.NotSet? || s.cell.progress.Over?) && c in s.place
    ensures Is(s, if s.cell.set_ then Submitted else Listed, c)
  {
    assert Is(s, s.place[c], c);
  }

  lemma PlacesMean(s: State, c: Continuation)
    requires PlacesFit(s)
    ensures (c in s.submitted ==> c in s.place) && (c in Pending(s.cell) ==> c in s.place)
  {
    assert Is(s, Submitted, c) <==> c in s.submitted;
    assert Is(s, Listed, c) <==> c in Pending(s.cell);
  }

  // ---------------------------------------------------------------- every call ends

  /** The mutex is held by a thread that is at a place where it holds it. */
  predicate HolderHolds(s: State) {
    s.cell.holder.Some? ==> s.cell.holder.value < |s.threads| && Holding(s.threads[s.cell.holder.value])
  }

  lemma MoveHolds(pc: Pc, cell: Cell, p: nat, m: Move)
    requires CellFits(cell) && PcFits(pc, cell, p) && MoveOf(pc, cell, p) == Some(m)
    ensures m.cell.holder == Some(p) ==> Holding(m.pc) || (!Holding(pc) && cell.holder == Some(p))
    ensures m.cell.holder == cell.holder || m.cell.holder == None || m.cell.holder == Some(p)
  {
  }

  lemma StepKeepsHolder(s: State, step: Step)
    requires ThreadsFit(s) && HolderHolds(s) && Next(s, step).Some?
    ensures HolderHolds(Next(s, step).value)
  {
    if step.Go? {
      hide MoveOf, PcFits, CellFits, Holding;
      var m := MoveOf(s.threads[step.p], s.cell, step.p).value;
      MoveHolds(s.threads[step.p], s.cell, step.p, m);
    }
  }

  lemma {:induction false} RunKeepsHolder(s: State, steps: seq<Step>)
    requires ThreadsFit(s) && HolderHolds(s) && Run(s, steps).Some?
    ensures HolderHolds(Run(s, steps).value)
    decreases |steps|
  {
    hide ThreadsFit, HolderHolds, Next;
    if steps != [] {
      StepKeepsThreads(s, steps[0]);
      StepKeepsHolder(s, steps[0]);
      RunKeepsHolder(Next(s, steps[0]).value, steps[1..]);
    }
  }

  /** A thread that cannot go on waits for the mutex, and the one that holds it can go on. */
  lemma NoDeadlock(s: State, p: nat)
    requires Reachable(s) && p < |s.threads| && s.threads[p] != Idle
    ensures Next(s, Go(p)).Some? ||
            (s.cell.holder.Some? && s.cell.holder.value != p && Next(s, Go(s.cell.holder.value)).Some?)
  {
    ReachableFits(s);
    var threads: nat, steps :| Run(Init(threads), steps) == Some(s);
    RunKeepsHolder(Init(threads), steps);
    hide Run;
    assert PcFits(s.threads[p], s.cell, p);
    if s.cell.holder.Some? {
      assert PcFits(s.threads[s.cell.holder.value], s.cell, s.cell.holder.value);
    }
  }

  /** How many steps a thread has left at most, apart from the callbacks it may call. */
  function StepsLeft(pc: Pc): nat {
    match pc
    case Idle => 0
    case ReadSet(_) => 7
    case SubmitNow(_) => 1
    case Lock(_) => 6
    case Recheck(_) => 5
    case SubmitLocked(_) => 2
    case Append(_) => 4
    case Unlock => 1
    case Exchange => 4
    case LockSweep => 3
    case Sweep(_) => 2
    case Clear => 1
  }

  function AllStepsLeft(threads: seq<Pc>): nat {
    if threads == [] then 0 else StepsLeft(threads[0]) + AllStepsLeft(threads[1..])
  }

  lemma {:induction false} OneChanges(threads: seq<Pc>, p: nat, pc: Pc)
    requires p < |threads|
    ensures AllStepsLeft(threads[p := pc]) == AllStepsLeft(threads) - StepsLeft(threads[p]) + StepsLeft(pc)
    ensures StepsLeft(threads[p]) <= AllStepsLeft(threads)
  {
    if p > 0 {
      OneChanges(threads[1..], p - 1, pc);
      assert threads[p := pc][1..] == threads[1..][p - 1 := pc];
    } else {
      assert threads[0 := pc][1..] == threads[1..];
    }
  }

  function Remaining(s: State): nat { AllStepsLeft(s.threads) + |Pending(s.cell)| }

  lemma MoveComesCloser(pc: Pc, cell: Cell, p: nat, m: Move)
    requires CellFits(cell) && PcFits(pc, cell, p) && MoveOf(pc, cell, p) == Some(m)
    ensures StepsLeft(m.pc) + |Pending(m.cell)| < StepsLeft(pc) + |Pending(cell)|
  {
  }

  /** Every step inside a call leaves fewer steps to be made, so every call ends if its thread goes on. */
  lemma StepsComeCloser(s: State, p: nat)
    requires ThreadsFit(s) && Next(s, Go(p)).Some?
    ensures Remaining(Next(s, Go(p)).value) < Remaining(s)
  {
    hide MoveOf, PcFits, CellFits, Pending, StepsLeft;
    var m := MoveOf(s.threads[p], s.cell, p).value;
    MoveComesCloser(s.threads[p], s.cell, p, m);
    OneChanges(s.threads, p, m.pc);
  }

  lemma {:induction false} RunsCompose(s: State, first: seq<Step>, second: seq<Step>)
    requires Run(s, first).Some?
    ensures Run(s, first + second) == Run(Run(s, first).value, second)
    decreases |first|
  {
    hide Next;
    if first == [] {
      assert first + second == second;
    } else {
      RunsCompose(Next(s, first[0]).value, first[1..], second);
      assert (first + second)[1..] == first[1..] + second;
    }
  }

  lemma ReachableNext(s: State, step: Step)
    requires Reachable(s) && Next(s, step).Some?
    ensures Reachable(Next(s, step).value)
  {
    var threads: nat, steps :| Run(Init(threads), steps) == Some(s);
    RunsCompose(Init(threads), steps, [step]);
    assert Run(s, [step]) == Next(s, step) by {
      assert [step][1..] == [];
      assert Next(s, step).Some? ==> Run(Next(s, step).value, []) == Next(s, step);
    }
    assert Run(Init(threads), steps + [step]) == Next(s, step);
  }

  predicate OnlyGoing(steps: seq<Step>) { forall k | 0 <= k < |steps| :: steps[k].Go? }

  /**
    * From every reachable state the calls that are under way can end, without new ones; and then, if the state is set,
    * every continuation ever registered has been submitted.
    */
  lemma {:induction false} EverythingEnds(s: State) returns (steps: seq<Step>)
    requires Reachable(s)
    ensures OnlyGoing(steps) && Run(s, steps).Some? && Quiescent(Run(s, steps).value)
    ensures var end := Run(s, steps).value;
            Reachable(end) && (end.cell.set_ ==> forall c :: c in end.place ==> c in end.submitted)
    decreases Remaining(s)
  {
    hide Reachable;
    if p: nat :| p < |s.threads| && s.threads[p] != Idle {
      NoDeadlock(s, p);
      var q := if Next(s, Go(p)).Some? then p else s.cell.holder.value;
      ReachableFits(s);
      StepsComeCloser(s, q);
      ReachableNext(s, Go(q));
      steps := EverythingEnds(Next(s, Go(q)).value);
      assert ([Go(q)] + steps)[1..] == steps;
      steps := [Go(q)] + steps;
    } else {
      steps := [];
      AllSubmittedAtRest(s);
    }
  }

  /** The thread has not exchanged the flag yet, or it is set. */
  predicate SetOrAboutTo(s: State, p: nat) { p < |s.threads| && (s.threads[p] == Exchange || s.cell.set_) }

  lemma StepSets(s: State, step: Step, p: nat)
    requires Next(s, step).Some? && SetOrAboutTo(s, p)
    ensures SetOrAboutTo(Next(s, step).value, p)
  {
  }

  /** When a call of `setExecuted` has ended, the state is set, whoever has set it. */
  lemma {:induction false} SetExecutedSets(s: State, p: nat, steps: seq<Step>)
    requires SetOrAboutTo(s, p) && Run(s, steps).Some?
    ensures SetOrAboutTo(Run(s, steps).value, p)
    ensures p < |Run(s, steps).value.threads| && Run(s, steps).value.threads[p] == Idle ==> Run(s, steps).value.cell.set_
    decreases |steps|
  {
    if steps != [] {
      hide Next;
      StepSets(s, steps[0], p);
      SetExecutedSets(Next(s, steps[0]).value, p, steps[1..]);
    }
  }

  /** How the calls begin. */
  lemma CallsBegin(s: State, p: nat, c: Continuation)
    requires p < |s.threads| && s.threads[p] == Idle
    ensures Next(s, SetExecuted(p)) == Some(s.(threads := s.threads[p := Exchange]))
    ensures c !in s.place ==>
              Next(s, Then(p, c)) == Some(s.(threads := s.threads[p := ReadSet(c)], place := s.place[c := InHand(p)]))
  {
  }
}
