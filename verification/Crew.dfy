/**
 The crew of benches/wasm_store_locality.rs: threads that outlive the rounds, handed work by a bump
 of `generation` and taken back by counting `done` up to the crew size. The worker loop, `round` and
 the drop run as interleaved atomic steps; no worker panics.
 */
module Crew {
  import opened Totals

  datatype WorkerPc = CheckStop | LoadGeneration | Dispatching | Counting | Returned

  /** A worker: the generation it last took up, and every generation whose share it has dispatched. */
  datatype Worker = Worker(seen: nat, pc: WorkerPc, ran: seq<nat>)

  datatype MainPc = Idle | Bumping | Waiting | Joining | Joined

  datatype State = State(generation: nat, done: nat, stop: bool, main: MainPc, rounds: nat, workers: seq<Worker>)

  datatype Action = StartRound | DropCrew | MainTurn | WorkerTurn(worker: nat)

  function Spawned(size: nat): State {
    State(0, 0, false, Idle, 0, seq(size, _ => Worker(0, CheckStop, [])))
  }

  // ----- the steps -------------------------------------------------------------------------

  function WorkerMoved(s: State, w: Worker): Worker {
    match w.pc
    case CheckStop => w.(pc := if s.stop then Returned else LoadGeneration)
    case LoadGeneration => if s.generation > w.seen then w.(seen := s.generation, pc := Dispatching) else w.(pc := CheckStop)
    case Dispatching => w.(ran := w.ran + [w.seen], pc := Counting)
    case Counting => w.(pc := CheckStop)
    case Returned => w
  }

  predicate AllReturned(workers: seq<Worker>) {
    forall i: nat | i < |workers| :: workers[i].pc == Returned
  }

  function Step(s: State, a: Action): State {
    match a
    // `round`: the reset, the bump, then the wait.
    case StartRound => if s.main == Idle then s.(done := 0, main := Bumping) else s
    case MainTurn =>
      (match s.main
       case Bumping => s.(generation := s.generation + 1, main := Waiting)
       case Waiting => if s.done >= |s.workers| then s.(main := Idle, rounds := s.rounds + 1) else s
       case Joining => if AllReturned(s.workers) then s.(main := Joined) else s
       case _ => s)
    // The drop needs the crew to itself, so no round is under way.
    case DropCrew => if s.main == Idle then s.(stop := true, main := Joining) else s
    case WorkerTurn(i) =>
      if i >= |s.workers| then s
      else
        var w := s.workers[i];
        s.(workers := s.workers[i := WorkerMoved(s, w)], done := if w.pc == Counting then s.done + 1 else s.done)
  }

  // ----- what every run keeps --------------------------------------------------------------

  /** The generations 1, 2, ..., k, each once and in order. */
  function UpTo(k: nat): seq<nat> {
    if k == 0 then [] else UpTo(k - 1) + [k]
  }

  predicate Between(w: Worker) {
    w.pc == CheckStop || w.pc == LoadGeneration
  }

  /** A worker with nothing left to do of the rounds returned so far. */
  predicate Settled(s: State, w: Worker) {
    w.seen == s.rounds && w.ran == UpTo(s.rounds) && (Between(w) || (w.pc == Returned && s.stop))
  }

  /** A worker that has taken up the generation of the round under way. */
  predicate TakenUp(s: State, w: Worker) {
    && w.seen == s.rounds + 1
    && (w.pc == Dispatching ==> w.ran == UpTo(s.rounds))
    && (w.pc != Dispatching ==> w.ran == UpTo(s.rounds + 1))
    && w.pc != Returned
  }

  predicate InOrder(s: State, w: Worker) {
    Settled(s, w) || (s.main == Waiting && TakenUp(s, w))
  }

  /** Worker w has finished generation g and counted itself in. */
  predicate CountedIn(w: Worker, g: nat) {
    w.seen == g && w.pc != Dispatching && w.pc != Counting
  }

  function Finishers(workers: seq<Worker>, g: nat): nat {
    Total(workers, w => if CountedIn(w, g) then 1 else 0)
  }

  ghost predicate Inv(s: State) {
    && s.generation == s.rounds + (if s.main == Waiting then 1 else 0)
    && (s.stop <==> s.main == Joining || s.main == Joined)
    && (forall i: nat | i < |s.workers| :: InOrder(s, s.workers[i]))
    && (s.main == Waiting ==> s.done == Finishers(s.workers, s.generation))
    && (s.main == Bumping ==> s.done == 0)
    && (s.main != Waiting && s.main != Bumping ==> s.done == if s.rounds == 0 then 0 else |s.workers|)
    && (s.main == Joined ==> AllReturned(s.workers))
  }

  lemma FinishersUpdate(workers: seq<Worker>, g: nat, i: nat, w: Worker)
    requires i < |workers|
    ensures Finishers(workers[i := w], g) ==
            Finishers(workers, g) - (if CountedIn(workers[i], g) then 1 else 0) + (if CountedIn(w, g) then 1 else 0)
  {
    TotalUpdate(workers, x => if CountedIn(x, g) then 1 else 0, i, w);
  }

  lemma FinishersBound(workers: seq<Worker>, g: nat)
    ensures Finishers(workers, g) <= |workers|
    ensures Finishers(workers, g) == |workers| <==> forall i: nat | i < |workers| :: CountedIn(workers[i], g)
    ensures (forall i: nat | i < |workers| :: !CountedIn(workers[i], g)) ==> Finishers(workers, g) == 0
  {
    var f: Worker -> nat := w => if CountedIn(w, g) then 1 else 0;
    TotalAtMost(workers, f, 1);
    TotalZero(workers, f);
    if forall i: nat | i < |workers| :: CountedIn(workers[i], g) {
      TotalExactly(workers, f, 1);
    } else {
      var i: nat :| i < |workers| && !CountedIn(workers[i], g);
      TotalFallsShort(workers, f, 1, i);
    }
  }

  /** One worker's step keeps it in order and counts it in exactly when it adds to `done`. */
  lemma MoveKeepsWorker(s: State, w: Worker)
    requires InOrder(s, w)
    requires s.generation == s.rounds + (if s.main == Waiting then 1 else 0)
    requires s.stop <==> s.main == Joining || s.main == Joined
    ensures InOrder(s, WorkerMoved(s, w))
    ensures s.main == Waiting ==>
              (CountedIn(WorkerMoved(s, w), s.generation) <==> CountedIn(w, s.generation) || w.pc == Counting)
    ensures w.pc == Counting ==> s.main == Waiting && !CountedIn(w, s.generation)
    ensures w.pc == Returned ==> WorkerMoved(s, w).pc == Returned
  {
    assert UpTo(s.rounds + 1) == UpTo(s.rounds) + [s.rounds + 1];
  }

  lemma WorkerStepInv(s: State, i: nat)
    requires Inv(s) && i < |s.workers|
    ensures Inv(Step(s, WorkerTurn(i)))
  {
    var s' := Step(s, WorkerTurn(i));
    assert InOrder(s, s.workers[i]);
    MoveKeepsWorker(s, s.workers[i]);
    FinishersUpdate(s.workers, s.generation, i, s'.workers[i]);
    forall k: nat | k < |s.workers|
      ensures InOrder(s', s'.workers[k])
    {
      assert InOrder(s, s.workers[k]);
      assert InOrder(s, s'.workers[k]);
    }
  }

  lemma MainStepInv(s: State)
    requires Inv(s)
    ensures Inv(Step(s, MainTurn))
  {
    var s' := Step(s, MainTurn);
    FinishersBound(s.workers, s.generation);
    FinishersBound(s.workers, s.generation + 1);
    forall i: nat | i < |s.workers|
      ensures InOrder(s', s'.workers[i])
    {
      assert InOrder(s, s.workers[i]);
      if s.main == Waiting && s.done >= |s.workers| {
        assert CountedIn(s.workers[i], s.generation);
      }
    }
  }

  lemma StepInv(s: State, a: Action)
    requires Inv(s)
    ensures Inv(Step(s, a)) && |Step(s, a).workers| == |s.workers|
  {
    match a
    case MainTurn => MainStepInv(s);
    case WorkerTurn(i) => if i < |s.workers| { WorkerStepInv(s, i); }
    case _ =>
      forall i: nat | i < |s.workers|
        ensures InOrder(Step(s, a), s.workers[i])
      {
        assert InOrder(s, s.workers[i]);
      }
  }

  ghost function Run(size: nat, schedule: seq<Action>): (s: State)
    ensures |s.workers| == size
  {
    if schedule == [] then Spawned(size)
    else Step(Run(size, schedule[..|schedule| - 1]), schedule[|schedule| - 1])
  }

  lemma {:induction false} RunInv(size: nat, schedule: seq<Action>)
    ensures Inv(Run(size, schedule))
  {
    if schedule != [] {
      RunInv(size, schedule[..|schedule| - 1]);
      StepInv(Run(size, schedule[..|schedule| - 1]), schedule[|schedule| - 1]);
    }
  }

  // ----- the main results ------------------------------------------------------------------

  /**
   `done` never passes the crew size, and once there has been a round it is the number that have
   finished the latest one, except between the reset and the bump: then it is 0 and they all have.
   */
  lemma DoneCountsFinishers(size: nat, schedule: seq<Action>)
    ensures var s := Run(size, schedule);
            && s.done <= size
            && (s.main != Bumping && s.generation > 0 ==> s.done == Finishers(s.workers, s.generation))
            && (s.main == Bumping && s.generation > 0 ==> s.done == 0 && Finishers(s.workers, s.generation) == size)
  {
    RunInv(size, schedule);
    var s := Run(size, schedule);
    FinishersBound(s.workers, s.generation);
    forall i: nat | i < size && s.main != Waiting && s.generation > 0
      ensures CountedIn(s.workers[i], s.generation)
    {
      assert InOrder(s, s.workers[i]);
    }
  }

  lemma InOrderMeans(s: State, w: Worker)
    requires InOrder(s, w) && s.generation == s.rounds + (if s.main == Waiting then 1 else 0)
    ensures w.ran == UpTo(s.rounds) || (s.main == Waiting && w.ran == UpTo(s.rounds + 1))
    ensures w.seen <= s.generation <= w.seen + 1
    ensures s.main != Waiting ==> Settled(s, w)
    ensures s.main == Waiting && CountedIn(w, s.generation) ==> w.ran == UpTo(s.generation)
  {
  }

  lemma RunInOrder(size: nat, schedule: seq<Action>, i: nat)
    requires i < size
    ensures var s := Run(size, schedule);
            InOrder(s, s.workers[i]) && s.generation == s.rounds + (if s.main == Waiting then 1 else 0)
  {
    RunInv(size, schedule);
  }

  /** No worker skips a generation or runs one twice. */
  lemma NoGenerationSkippedOrRepeated(size: nat, schedule: seq<Action>, i: nat)
    requires i < size
    ensures var s := Run(size, schedule);
            var w := s.workers[i];
            && (w.ran == UpTo(s.rounds) || (s.main == Waiting && w.ran == UpTo(s.rounds + 1)))
            && s.rounds <= s.generation <= s.rounds + 1
            && w.seen <= s.generation <= w.seen + 1
  {
    RunInOrder(size, schedule, i);
    InOrderMeans(Run(size, schedule), Run(size, schedule).workers[i]);
  }

  /**
   The reset that starts a round loses no completion: nobody is about to count itself in, and
   everybody has finished every generation there has been.
   */
  lemma ResetLosesNothing(size: nat, schedule: seq<Action>, i: nat)
    requires i < size && Run(size, schedule).main != Waiting
    ensures var s := Run(size, schedule);
            s.workers[i].pc != Counting && s.workers[i].pc != Dispatching && s.workers[i].ran == UpTo(s.generation)
  {
    RunInv(size, schedule);
    var s := Run(size, schedule);
    assert Settled(s, s.workers[i]);
  }

  /** A round that returns does so over a crew that has all finished it. */
  lemma RoundReturnsWhenAllFinished(size: nat, schedule: seq<Action>)
    requires Run(size, schedule).main == Waiting
    ensures var s := Run(size, schedule);
            Step(s, MainTurn).main == Idle <==> forall i: nat | i < size :: CountedIn(s.workers[i], s.generation)
    ensures var s := Run(size, schedule);
            Step(s, MainTurn).main == Idle ==> forall i: nat | i < size :: s.workers[i].ran == UpTo(s.generation)
  {
    RunInv(size, schedule);
    var s := Run(size, schedule);
    FinishersBound(s.workers, s.generation);
    forall i: nat | i < size && CountedIn(s.workers[i], s.generation)
      ensures s.workers[i].ran == UpTo(s.generation)
    {
      InOrderMeans(s, s.workers[i]);
    }
  }

  /** After the stop and the joins, each worker has run exactly the shares of the rounds there were. */
  lemma JoinedCrewRanEveryRound(size: nat, schedule: seq<Action>, i: nat)
    requires i < size && Run(size, schedule).main == Joined
    ensures Run(size, schedule).workers[i].ran == UpTo(Run(size, schedule).rounds)
    ensures Run(size, schedule).workers[i].pc == Returned
  {
    RunInv(size, schedule);
    var s := Run(size, schedule);
    assert Settled(s, s.workers[i]);
  }

  // ----- a round that waits is not stuck ---------------------------------------------------

  /** The steps worker w still has to take before it is counted into generation g. */
  function Remaining(w: Worker, g: nat): nat {
    if w.seen == g then (match w.pc case Dispatching => 2 case Counting => 1 case _ => 0)
    else if w.pc == LoadGeneration then 3 else 4
  }

  function TotalRemaining(workers: seq<Worker>, g: nat): nat {
    Total(workers, w => Remaining(w, g))
  }

  /**
   While a round waits, a turn of a worker that is not yet counted in brings the round one step
   nearer its end and no other worker's turn takes it back; nothing left means the wait is over.
   */
  lemma WaitingRoundMakesProgress(s: State, i: nat)
    requires Inv(s) && s.main == Waiting && i < |s.workers|
    ensures TotalRemaining(Step(s, WorkerTurn(i)).workers, s.generation) ==
            TotalRemaining(s.workers, s.generation) - (if Remaining(s.workers[i], s.generation) > 0 then 1 else 0)
    ensures TotalRemaining(s.workers, s.generation) == 0 <==> Step(s, MainTurn).main == Idle
    ensures TotalRemaining(s.workers, s.generation) > 0 ==>
              exists k: nat | k < |s.workers| :: Remaining(s.workers[k], s.generation) > 0
  {
    assert InOrder(s, s.workers[i]);
    TotalUpdate(s.workers, w => Remaining(w, s.generation), i, WorkerMoved(s, s.workers[i]));
    TotalZero(s.workers, w => Remaining(w, s.generation));
    NothingRemainsWhenCounted(s);
  }

  lemma NothingRemainsWhenCounted(s: State)
    requires Inv(s) && s.main == Waiting
    ensures (forall k: nat | k < |s.workers| :: Remaining(s.workers[k], s.generation) == 0) <==> s.done >= |s.workers|
  {
    FinishersBound(s.workers, s.generation);
    forall k: nat | k < |s.workers|
      ensures Remaining(s.workers[k], s.generation) == 0 <==> CountedIn(s.workers[k], s.generation)
    {
      assert InOrder(s, s.workers[k]);
    }
  }
}
