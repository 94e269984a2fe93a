/**
 The cross-block barrier that `PROBE_SOURCE` of examples/gpu_peer_generation_barrier.rs runs once
 per generation. Each block is one process (its threads are bracketed by `__syncthreads`), each
 atomic on a cell and each reading of the timer is one step, and the cells are 32-bit words. The
 arrival count is never reset, and a block may leave a barrier on its deadline.
 */
module GenerationBarrier {
  import opened Layout
  import opened Options
  import opened Totals

  /** One past the largest value of a cell. */
  const WORD: nat := 0x1_0000_0000

  function Clamped(waited: nat): nat {
    if waited > WORD - 1 then WORD - 1 else waited
  }

  // ----- the device op ---------------------------------------------------------------------

  datatype Pc =
    | Working          // spinning its share of the generation, before the arrival
    | Polling          // arrived; about to read the arrival count
    | Checking         // read a count below the target; about to look at its deadline
    | Leaving          // out of the loop; about to take the time it waited
    | MaxDue | SumDue | GenerationMaxDue | TimeoutDue
    | Finished

  datatype Block = Block(generation: nat, pc: Pc, whole: bool, waited: nat)

  /** Cells 0 to 5, in order. */
  datatype Cells = Cells(arrivals: nat, waitMax: nat, waitSum: nat, timeouts: nat, gen0Max: nat, steadyMax: nat)

  /** What the blocks really waited: every wait recorded so far, in nanoseconds and in whole units of 1024. */
  datatype Tally = Tally(waits: nat, nanos: nat, units: nat)

  datatype State = State(cells: Cells, blocks: seq<Block>, tally: Tally)

  datatype Launch = Launch(team: nat, generations: nat, deadlineNs: nat)

  /** What the timer says when a step reads it: whether the deadline has passed, and how long the wait was. */
  datatype Clock = Clock(expired: bool, waited: nat)

  function Initial(launch: Launch): State {
    State(Cells(0, 0, 0, 0, 0, 0),
          seq(launch.team, _ => StartOf(launch, 0)),
          Tally(0, 0, 0))
  }

  function StartOf(launch: Launch, generation: nat): Block {
    Block(generation, if generation < launch.generations then Working else Finished, true, 0)
  }

  function Target(launch: Launch, generation: nat): nat {
    (launch.team * (generation + 1)) % WORD
  }

  /** The wait a block that leaves records. The timer only goes forward, so one on its deadline records more than that. */
  function WaitOf(launch: Launch, b: Block, clock: Clock): (ns: nat)
    ensures !b.whole ==> ns > launch.deadlineNs
  {
    if b.whole then clock.waited else Max(clock.waited, launch.deadlineNs + 1)
  }

  /** What one step makes of the block that takes it. */
  function BlockStep(launch: Launch, b: Block, c: Cells, clock: Clock): Block {
    match b.pc
    case Working => b.(pc := Polling, whole := true)
    case Polling => b.(pc := if c.arrivals < Target(launch, b.generation) then Checking else Leaving)
    case Checking => if clock.expired then b.(pc := Leaving, whole := false) else b.(pc := Polling)
    case Leaving => b.(pc := MaxDue, waited := WaitOf(launch, b, clock))
    case MaxDue => b.(pc := SumDue)
    case SumDue => b.(pc := GenerationMaxDue)
    case GenerationMaxDue => if b.whole then StartOf(launch, b.generation + 1) else b.(pc := TimeoutDue)
    case TimeoutDue => StartOf(launch, b.generation + 1)
    case Finished => b
  }

  /** What the same step does to the cells: an atomic add or an atomic maximum, or nothing. */
  function CellsStep(b: Block, c: Cells): Cells {
    match b.pc
    case Working => c.(arrivals := (c.arrivals + 1) % WORD)
    case MaxDue => c.(waitMax := Max(c.waitMax, Clamped(b.waited)))
    case SumDue => c.(waitSum := (c.waitSum + (b.waited / 1024) % WORD) % WORD)
    case GenerationMaxDue =>
      if b.generation == 0 then c.(gen0Max := Max(c.gen0Max, Clamped(b.waited)))
      else c.(steadyMax := Max(c.steadyMax, Clamped(b.waited)))
    case TimeoutDue => c.(timeouts := (c.timeouts + 1) % WORD)
    case _ => c
  }

  function TallyStep(b: Block, t: Tally): Tally {
    if b.pc == SumDue then Tally(t.waits + 1, t.nanos + b.waited, t.units + b.waited / 1024) else t
  }

  /** One step of block i. */
  function Step(launch: Launch, s: State, i: nat, clock: Clock): State
    requires i < |s.blocks|
  {
    var b := s.blocks[i];
    State(CellsStep(b, s.cells), s.blocks[i := BlockStep(launch, b, s.cells, clock)], TallyStep(b, s.tally))
  }

  datatype Turn = Turn(block: nat, clock: Clock)

  // ----- counting over the team ------------------------------------------------------------

  /** The barriers a block has arrived at. */
  function Arrived(b: Block): nat {
    if b.pc == Working || b.pc == Finished then b.generation else b.generation + 1
  }

  /** The barriers whose wait a block has added to the sum. */
  function Recorded(b: Block): nat {
    if b.pc == GenerationMaxDue || b.pc == TimeoutDue then b.generation + 1 else b.generation
  }

  // ----- what every run keeps --------------------------------------------------------------

  /** The launch's barriers can be counted in one word. */
  predicate Countable(launch: Launch) {
    launch.team * launch.generations < WORD
  }

  /** The block has left its barrier and not yet finished with it. */
  predicate Left(b: Block) {
    b.pc != Working && b.pc != Polling && b.pc != Checking && b.pc != Finished
  }

  /** Its wait is in the overall maximum and not yet in its generation's. */
  predicate MaxPending(b: Block) {
    b.pc == SumDue || b.pc == GenerationMaxDue
  }

  ghost predicate BlockInv(launch: Launch, b: Block) {
    && b.generation <= launch.generations
    && (b.pc == Finished <==> b.generation == launch.generations)
    && (b.pc == TimeoutDue ==> !b.whole)
    && (b.pc == Polling || b.pc == Checking ==> b.whole)
  }

  ghost predicate CountInv(launch: Launch, s: State) {
    && |s.blocks| == launch.team
    && (forall i: nat | i < launch.team :: BlockInv(launch, s.blocks[i]))
    && s.cells.arrivals == Total(s.blocks, Arrived)
    && s.cells.timeouts <= Total(s.blocks, Completed)
  }

  function Completed(b: Block): nat {
    b.generation
  }

  /** Everyone has arrived wherever block i has been let through. */
  ghost predicate LetThrough(s: State, i: nat)
    requires i < |s.blocks|
  {
    var b := s.blocks[i];
    forall j: nat | j < |s.blocks| ::
      Arrived(s.blocks[j]) >= b.generation + (if Left(b) && b.whole then 1 else 0)
  }

  ghost predicate SafetyInv(launch: Launch, s: State) {
    CountInv(launch, s) && (s.cells.timeouts == 0 ==> forall i: nat | i < launch.team :: LetThrough(s, i))
  }

  ghost predicate TallyInv(launch: Launch, s: State) {
    && |s.blocks| == launch.team
    && s.tally.waits == Total(s.blocks, Recorded)
    && s.tally.units * 1024 <= s.tally.nanos <= s.tally.units * 1024 + 1023 * s.tally.waits
    && s.cells.waitSum == s.tally.units % WORD
  }

  ghost predicate MaxInv(s: State) {
    && Max(s.cells.gen0Max, s.cells.steadyMax) <= s.cells.waitMax
    && (forall i: nat | i < |s.blocks| && MaxPending(s.blocks[i]) :: Clamped(s.blocks[i].waited) <= s.cells.waitMax)
    && (s.cells.waitMax == Max(s.cells.gen0Max, s.cells.steadyMax) || SomePendingIsMax(s))
  }

  /** A block that gave up has waited past the deadline, and the overall maximum says so from then on. */
  ghost predicate DeadlineInv(launch: Launch, s: State) {
    && (forall i: nat | i < |s.blocks| && GaveUp(s.blocks[i]) :: s.blocks[i].waited > launch.deadlineNs)
    && (s.cells.timeouts > 0 || TimeoutPending(s) ==> s.cells.waitMax >= Clamped(launch.deadlineNs + 1))
  }

  predicate GaveUp(b: Block) {
    !b.whole && (b.pc == MaxDue || b.pc == SumDue || b.pc == GenerationMaxDue || b.pc == TimeoutDue)
  }

  ghost predicate TimeoutPending(s: State) {
    exists i: nat :: i < |s.blocks| && GaveUp(s.blocks[i]) && s.blocks[i].pc != MaxDue
  }

  lemma DeadlineStep(launch: Launch, s: State, i: nat, clock: Clock)
    requires CountInv(launch, s) && DeadlineInv(launch, s) && i < |s.blocks|
    ensures DeadlineInv(launch, Step(launch, s, i, clock))
  {
    var s' := Step(launch, s, i, clock);
    assert BlockInv(launch, s.blocks[i]);
    if s'.cells.timeouts > 0 || TimeoutPending(s') {
      if s.blocks[i].pc == TimeoutDue {
        assert TimeoutPending(s);
      } else if TimeoutPending(s') {
        var k: nat :| k < |s'.blocks| && GaveUp(s'.blocks[k]) && s'.blocks[k].pc != MaxDue;
        assert k == i || TimeoutPending(s);
      }
    }
  }

  ghost predicate SomePendingIsMax(s: State) {
    exists i: nat | i < |s.blocks| && MaxPending(s.blocks[i]) :: Clamped(s.blocks[i].waited) == s.cells.waitMax
  }

  lemma {:induction false} InitialInv(launch: Launch)
    ensures SafetyInv(launch, Initial(launch)) && TallyInv(launch, Initial(launch)) && MaxInv(Initial(launch))
  {
    var s := Initial(launch);
    TotalExactly(s.blocks, Arrived, 0);
    TotalExactly(s.blocks, Completed, 0);
    TotalExactly(s.blocks, Recorded, 0);
  }

  lemma ArrivalsFit(launch: Launch, s: State, i: nat)
    requires Countable(launch) && CountInv(launch, s) && i < launch.team
    ensures s.blocks[i].pc == Working ==> s.cells.arrivals + 1 < WORD
    ensures s.blocks[i].pc == TimeoutDue ==> s.cells.timeouts + 1 < WORD
  {
    var bound := launch.generations;
    forall k: nat | k < launch.team
      ensures Arrived(s.blocks[k]) <= bound && Completed(s.blocks[k]) <= bound
    {
      assert BlockInv(launch, s.blocks[k]);
    }
    assert BlockInv(launch, s.blocks[i]);
    if s.blocks[i].pc == Working {
      TotalFallsShort(s.blocks, Arrived, bound, i);
    }
    if s.blocks[i].pc == TimeoutDue {
      TotalFallsShort(s.blocks, Completed, bound, i);
    }
  }

  /** A step keeps its block consistent, and moves its arrival and its completion only where it should. */
  lemma BlockStepInv(launch: Launch, b: Block, c: Cells, clock: Clock)
    requires BlockInv(launch, b)
    ensures var b' := BlockStep(launch, b, c, clock);
            && BlockInv(launch, b')
            && Arrived(b') == Arrived(b) + (if b.pc == Working then 1 else 0)
            && Recorded(b') == Recorded(b) + (if b.pc == SumDue then 1 else 0)
            && Completed(b') == Completed(b) + (if b.pc == TimeoutDue || (b.pc == GenerationMaxDue && b.whole) then 1 else 0)
  {
  }

  lemma CountStep(launch: Launch, s: State, i: nat, clock: Clock)
    requires Countable(launch) && CountInv(launch, s) && i < launch.team
    ensures CountInv(launch, Step(launch, s, i, clock))
    ensures s.blocks[i].pc == TimeoutDue ==> Step(launch, s, i, clock).cells.timeouts == s.cells.timeouts + 1
  {
    ArrivalsFit(launch, s, i);
    var b := s.blocks[i];
    assert BlockInv(launch, b);
    BlockStepInv(launch, b, s.cells, clock);
    var b' := BlockStep(launch, b, s.cells, clock);
    TotalUpdate(s.blocks, Arrived, i, b');
    TotalUpdate(s.blocks, Completed, i, b');
  }

  /**
   A count that has reached its target has everyone in it. Nobody is more than one arrival ahead
   of anybody, so one block short of this generation would leave the count short of the target.
   */
  lemma TargetMeansEveryone(launch: Launch, s: State, i: nat)
    requires Countable(launch) && SafetyInv(launch, s) && s.cells.timeouts == 0
    requires i < launch.team && s.blocks[i].pc == Polling && s.cells.arrivals >= Target(launch, s.blocks[i].generation)
    ensures forall j: nat | j < launch.team :: Arrived(s.blocks[j]) >= s.blocks[i].generation + 1
  {
    var g := s.blocks[i].generation;
    assert BlockInv(launch, s.blocks[i]);
    TargetDoesNotWrap(launch, g);
    forall j: nat | j < launch.team
      ensures Arrived(s.blocks[j]) >= g + 1
    {
      if Arrived(s.blocks[j]) <= g {
        forall k: nat | k < launch.team
          ensures Arrived(s.blocks[k]) <= g + 1
        {
          assert LetThrough(s, k);
        }
        TotalFallsShort(s.blocks, Arrived, g + 1, j);
      }
    }
  }

  lemma TargetDoesNotWrap(launch: Launch, generation: nat)
    requires Countable(launch) && generation < launch.generations
    ensures Target(launch, generation) == launch.team * (generation + 1)
  {
    ProductMonotone(launch.team, launch.team, generation + 1, launch.generations);
  }

  lemma SafetyStep(launch: Launch, s: State, i: nat, clock: Clock)
    requires Countable(launch) && SafetyInv(launch, s) && i < launch.team
    ensures SafetyInv(launch, Step(launch, s, i, clock))
  {
    CountStep(launch, s, i, clock);
    BlockStepInv(launch, s.blocks[i], s.cells, clock);
    var s' := Step(launch, s, i, clock);
    if s'.cells.timeouts == 0 {
      assert s.cells.timeouts == 0;
      assert LetThrough(s, i);
      if s.blocks[i].pc == Polling && s.cells.arrivals >= Target(launch, s.blocks[i].generation) {
        TargetMeansEveryone(launch, s, i);
      }
      assert Arrived(s'.blocks[i]) >= Arrived(s.blocks[i]);
      forall k: nat | k < launch.team
        ensures LetThrough(s', k)
      {
        assert LetThrough(s, k);
      }
    }
  }

  lemma TallyStepInv(launch: Launch, s: State, i: nat, clock: Clock)
    requires TallyInv(launch, s) && CountInv(launch, s) && i < launch.team
    ensures TallyInv(launch, Step(launch, s, i, clock))
  {
    var b := s.blocks[i];
    assert BlockInv(launch, b);
    BlockStepInv(launch, b, s.cells, clock);
    var s' := Step(launch, s, i, clock);
    TotalUpdate(s.blocks, Recorded, i, s'.blocks[i]);
    if b.pc == SumDue {
      assert b.waited == b.waited / 1024 * 1024 + b.waited % 1024;
      SumWraps(s.tally.units, b.waited / 1024);
    }
  }

  lemma SumWraps(a: nat, b: nat)
    ensures (a % WORD + b % WORD) % WORD == (a + b) % WORD
  {
    var qa, qb := a / WORD, b / WORD;
    var sum := a % WORD + b % WORD;
    assert a + b == (qa + qb) * WORD + sum;
    if sum >= WORD {
      assert a + b == (qa + qb + 1) * WORD + (sum - WORD);
    }
  }

  lemma MaxStep(launch: Launch, s: State, i: nat, clock: Clock)
    requires MaxInv(s) && i < |s.blocks|
    ensures MaxInv(Step(launch, s, i, clock))
  {
    var s' := Step(launch, s, i, clock);
    if s.blocks[i].pc == MaxDue && s.cells.waitMax < Clamped(s.blocks[i].waited) {
      assert MaxPending(s'.blocks[i]) && Clamped(s'.blocks[i].waited) == s'.cells.waitMax;
    } else if SomePendingIsMax(s) {
      var k: nat :| k < |s.blocks| && MaxPending(s.blocks[k]) && Clamped(s.blocks[k].waited) == s.cells.waitMax;
      if k != i || MaxPending(s'.blocks[i]) {
        assert MaxPending(s'.blocks[k]) && Clamped(s'.blocks[k].waited) == s'.cells.waitMax;
      }
    }
  }

  predicate ForTeam(launch: Launch, schedule: seq<Turn>) {
    forall t: nat | t < |schedule| :: schedule[t].block < launch.team
  }

  /** The state after the turns of `schedule`. */
  ghost function Run(launch: Launch, schedule: seq<Turn>): (s: State)
    requires ForTeam(launch, schedule)
    ensures |s.blocks| == launch.team
  {
    if schedule == [] then Initial(launch)
    else
      var turn := schedule[|schedule| - 1];
      Step(launch, Run(launch, schedule[..|schedule| - 1]), turn.block, turn.clock)
  }

  lemma {:induction false} RunInv(launch: Launch, schedule: seq<Turn>)
    requires Countable(launch) && ForTeam(launch, schedule)
    ensures SafetyInv(launch, Run(launch, schedule))
    ensures TallyInv(launch, Run(launch, schedule))
    ensures MaxInv(Run(launch, schedule)) && DeadlineInv(launch, Run(launch, schedule))
  {
    if schedule == [] {
      InitialInv(launch);
    } else {
      var before := schedule[..|schedule| - 1];
      RunInv(launch, before);
      var s, turn := Run(launch, before), schedule[|schedule| - 1];
      SafetyStep(launch, s, turn.block, turn.clock);
      TallyStepInv(launch, s, turn.block, turn.clock);
      MaxStep(launch, s, turn.block, turn.clock);
      DeadlineStep(launch, s, turn.block, turn.clock);
    }
  }

  // ----- the main results ------------------------------------------------------------------

  /**
   While no timeout has been counted, a block that has begun generation g has everyone arrived at
   g - 1, so no two blocks are more than one generation apart. A block that has hit its deadline
   and not counted it yet has not begun the next generation either.
   */
  lemma NoBlockRunsAhead(launch: Launch, schedule: seq<Turn>, i: nat, j: nat)
    requires Countable(launch) && i < launch.team && j < launch.team
    requires ForTeam(launch, schedule)
    requires Run(launch, schedule).cells.timeouts == 0
    ensures Arrived(Run(launch, schedule).blocks[j]) >= Run(launch, schedule).blocks[i].generation
    ensures Run(launch, schedule).blocks[j].generation + 1 >= Run(launch, schedule).blocks[i].generation
  {
    RunInv(launch, schedule);
    assert LetThrough(Run(launch, schedule), i);
  }

  /** What the host reads back as the wait sum. */
  function HostWaitSum(s: State): nat {
    s.cells.waitSum * 1024
  }

  /** Every block has run every generation. */
  ghost predicate AllFinished(launch: Launch, s: State) {
    |s.blocks| == launch.team && forall i: nat | i < launch.team :: s.blocks[i].pc == Finished
  }

  /**
   Once every block has finished, whatever timed out on the way: the arrival cell holds every
   barrier of every block, the overall maximum is the larger of the two others, and unless the sum
   wrapped the host is short of the true total by less than 1024 ns a barrier.
   */
  lemma FinalCells(launch: Launch, schedule: seq<Turn>)
    requires Countable(launch)
    requires ForTeam(launch, schedule)
    requires AllFinished(launch, Run(launch, schedule))
    ensures var s := Run(launch, schedule);
            && s.cells.arrivals == s.tally.waits == launch.team * launch.generations
            && s.cells.waitMax == Max(s.cells.gen0Max, s.cells.steadyMax)
            && (s.cells.timeouts > 0 ==> s.cells.waitMax >= Clamped(launch.deadlineNs + 1))
            && HostWaitSum(s) == s.tally.units % WORD * 1024
            && (s.tally.units < WORD ==> 0 <= s.tally.nanos - HostWaitSum(s) <= 1023 * s.tally.waits)
  {
    RunInv(launch, schedule);
    var s := Run(launch, schedule);
    FinalCounts(launch, s);
    FinalSums(launch, s);
  }

  lemma FinalSums(launch: Launch, s: State)
    requires TallyInv(launch, s) && MaxInv(s) && AllFinished(launch, s)
    ensures s.cells.waitMax == Max(s.cells.gen0Max, s.cells.steadyMax)
    ensures HostWaitSum(s) == s.tally.units % WORD * 1024
    ensures s.tally.units < WORD ==> 0 <= s.tally.nanos - HostWaitSum(s) <= 1023 * s.tally.waits
  {
  }

  lemma FinalCounts(launch: Launch, s: State)
    requires CountInv(launch, s) && TallyInv(launch, s) && AllFinished(launch, s)
    ensures s.cells.arrivals == s.tally.waits == launch.team * launch.generations
  {
    forall i: nat | i < |s.blocks|
      ensures Arrived(s.blocks[i]) == launch.generations == Recorded(s.blocks[i])
    {
      assert BlockInv(launch, s.blocks[i]);
    }
    TotalExactly(s.blocks, Arrived, launch.generations);
    TotalExactly(s.blocks, Recorded, launch.generations);
  }

  // ----- when a timeout makes the barrier leak ---------------------------------------------

  /** A block that has left its barrier as whole has everyone arrived at it. */
  ghost predicate WholeSafe(s: State) {
    forall i: nat | i < |s.blocks| && Left(s.blocks[i]) && s.blocks[i].whole ::
      EveryoneAt(s.blocks, s.blocks[i].generation)
  }

  ghost predicate EveryoneAt(blocks: seq<Block>, generation: nat) {
    forall j: nat | j < |blocks| :: Arrived(blocks[j]) >= generation + 1
  }

  ghost predicate Reachable(launch: Launch, s: State) {
    exists schedule: seq<Turn> | ForTeam(launch, schedule) :: Run(launch, schedule) == s
  }

  /** Nobody but the block itself can have run ahead, or there is nothing ahead to run to. */
  predicate CannotLeak(launch: Launch) {
    launch.team <= 2 || launch.generations <= 1
  }

  /** Then a count that has reached its target has everyone in it, whatever has timed out. */
  lemma TargetMeansBoth(launch: Launch, s: State, i: nat)
    requires Countable(launch) && CannotLeak(launch) && CountInv(launch, s)
    requires i < launch.team && s.blocks[i].pc == Polling && s.cells.arrivals >= Target(launch, s.blocks[i].generation)
    ensures EveryoneAt(s.blocks, s.blocks[i].generation)
  {
    var g := s.blocks[i].generation;
    assert BlockInv(launch, s.blocks[i]);
    TargetDoesNotWrap(launch, g);
    forall j: nat | j < launch.team
      ensures Arrived(s.blocks[j]) >= g + 1
    {
      if Arrived(s.blocks[j]) <= g {
        forall k: nat | k < launch.team
          ensures Arrived(s.blocks[k]) <= g + 1
        {
          assert BlockInv(launch, s.blocks[k]);
          assert k == i || k == j || launch.generations <= 1;
        }
        TotalFallsShort(s.blocks, Arrived, g + 1, j);
      }
    }
  }

  lemma WholeStep(launch: Launch, s: State, i: nat, clock: Clock)
    requires Countable(launch) && CannotLeak(launch) && CountInv(launch, s) && WholeSafe(s) && i < launch.team
    ensures WholeSafe(Step(launch, s, i, clock))
  {
    var s' := Step(launch, s, i, clock);
    assert BlockInv(launch, s.blocks[i]);
    BlockStepInv(launch, s.blocks[i], s.cells, clock);
    if s.blocks[i].pc == Polling && s.cells.arrivals >= Target(launch, s.blocks[i].generation) {
      TargetMeansBoth(launch, s, i);
    }
    forall k: nat | k < |s'.blocks| && Left(s'.blocks[k]) && s'.blocks[k].whole
      ensures EveryoneAt(s'.blocks, s'.blocks[k].generation)
    {
      assert EveryoneAt(s.blocks, s'.blocks[k].generation);
    }
  }

  lemma {:induction false} RunWholeSafe(launch: Launch, schedule: seq<Turn>)
    requires Countable(launch) && CannotLeak(launch) && ForTeam(launch, schedule)
    ensures WholeSafe(Run(launch, schedule))
  {
    if schedule != [] {
      var before := schedule[..|schedule| - 1];
      RunWholeSafe(launch, before);
      RunInv(launch, before);
      WholeStep(launch, Run(launch, before), schedule[|schedule| - 1].block, schedule[|schedule| - 1].clock);
    }
  }

  lemma ReachableStep(launch: Launch, s: State, i: nat, expired: bool, s': State)
    requires Reachable(launch, s) && i < launch.team && |s.blocks| == launch.team
    requires s' == Step(launch, s, i, Clock(expired, 0))
    ensures Reachable(launch, s')
  {
    var schedule: seq<Turn> :| ForTeam(launch, schedule) && Run(launch, schedule) == s;
    var longer := schedule + [Turn(i, Clock(expired, 0))];
    assert longer[..|schedule|] == schedule;
    assert Run(launch, longer) == s';
  }

  predicate CanLeak(launch: Launch) {
    Countable(launch) && !CannotLeak(launch)
  }

  /** A team of which block 0 is `first`, blocks 1 to k wait at the first barrier and the rest still work. */
  function Crowd(team: nat, first: Block, k: nat): (blocks: seq<Block>)
    ensures |blocks| == team
  {
    seq(team, i requires 0 <= i < team => if i == 0 then first else Block(0, if i <= k then Polling else Working, true, 0))
  }

  lemma FirstMoves(launch: Launch, c: Cells, t: Tally, first: Block, k: nat, expired: bool)
    requires launch.team > 0 && Reachable(launch, State(c, Crowd(launch.team, first, k), t))
    ensures Reachable(launch, State(CellsStep(first, c),
                                    Crowd(launch.team, BlockStep(launch, first, c, Clock(expired, 0)), k),
                                    TallyStep(first, t)))
  {
    var s := State(c, Crowd(launch.team, first, k), t);
    var s' := Step(launch, s, 0, Clock(expired, 0));
    ReachableStep(launch, s, 0, expired, s');
    assert s'.blocks == Crowd(launch.team, BlockStep(launch, first, c, Clock(expired, 0)), k);
  }

  /** The first barrier's target is the whole team, and there is a second barrier. */
  lemma FirstTarget(launch: Launch)
    requires CanLeak(launch)
    ensures Target(launch, 0) == launch.team < WORD
  {
    TargetDoesNotWrap(launch, 0);
    ProductMonotone(launch.team, launch.team, 1, launch.generations);
  }

  /** The cells and the tally after block 0 alone has waited past its deadline, recorded that, and counted the timeout. */
  function TimedOut(launch: Launch, arrivals: nat, timeouts: nat): Cells {
    var waited := launch.deadlineNs + 1;
    Cells(arrivals, Clamped(waited), waited / 1024 % WORD, timeouts, Clamped(waited), 0)
  }

  function OneWait(launch: Launch): Tally {
    Tally(1, launch.deadlineNs + 1, (launch.deadlineNs + 1) / 1024)
  }

  /** Block 0 alone at the first barrier, and out of it on its deadline. */
  lemma FirstLeaves(launch: Launch)
    requires CanLeak(launch)
    ensures Reachable(launch, State(Cells(1, 0, 0, 0, 0, 0), Crowd(launch.team, Block(0, Leaving, false, 0), 0), Tally(0, 0, 0)))
  {
    FirstTarget(launch);
    var zero, c, t := Cells(0, 0, 0, 0, 0, 0), Cells(1, 0, 0, 0, 0, 0), Tally(0, 0, 0);
    assert Run(launch, []) == State(zero, Crowd(launch.team, Block(0, Working, true, 0), 0), t);
    FirstMoves(launch, zero, t, Block(0, Working, true, 0), 0, true);
    FirstMoves(launch, c, t, Block(0, Polling, true, 0), 0, true);
    FirstMoves(launch, c, t, Block(0, Checking, true, 0), 0, true);
  }

  /** Then its wait in the overall maximum, ... */
  lemma FirstMax(launch: Launch)
    requires CanLeak(launch)
    ensures var waited := launch.deadlineNs + 1;
            Reachable(launch, State(Cells(1, Clamped(waited), 0, 0, 0, 0),
                                    Crowd(launch.team, Block(0, SumDue, false, waited), 0), Tally(0, 0, 0)))
  {
    FirstLeaves(launch);
    var waited := launch.deadlineNs + 1;
    var c, t := Cells(1, 0, 0, 0, 0, 0), Tally(0, 0, 0);
    FirstMoves(launch, c, t, Block(0, Leaving, false, 0), 0, true);
    FirstMoves(launch, c, t, Block(0, MaxDue, false, waited), 0, true);
  }

  lemma FirstInSum(max: nat, waited: nat)
    ensures CellsStep(Block(0, SumDue, false, waited), Cells(1, max, 0, 0, 0, 0))
         == Cells(1, max, waited / 1024 % WORD, 0, 0, 0)
    ensures TallyStep(Block(0, SumDue, false, waited), Tally(0, 0, 0)) == Tally(1, waited, waited / 1024)
  {
    var units := waited / 1024;
    assert (units % WORD) % WORD == units % WORD;
  }

  /** ... in the sum, ... */
  lemma FirstSums(launch: Launch)
    requires CanLeak(launch)
    ensures var waited := launch.deadlineNs + 1;
            Reachable(launch, State(TimedOut(launch, 1, 0).(gen0Max := 0),
                                    Crowd(launch.team, Block(0, GenerationMaxDue, false, waited), 0), OneWait(launch)))
  {
    FirstMax(launch);
    var waited := launch.deadlineNs + 1;
    FirstInSum(Clamped(waited), waited);
    FirstMoves(launch, Cells(1, Clamped(waited), 0, 0, 0, 0), Tally(0, 0, 0), Block(0, SumDue, false, waited), 0, true);
  }

  /** ... and in its generation's maximum, and the timeout counted. */
  lemma FirstCounts(launch: Launch)
    requires CanLeak(launch)
    ensures Reachable(launch, State(TimedOut(launch, 1, 1), Crowd(launch.team, Block(1, Working, true, 0), 0), OneWait(launch)))
  {
    FirstSums(launch);
    var waited, t := launch.deadlineNs + 1, OneWait(launch);
    FirstMoves(launch, TimedOut(launch, 1, 0).(gen0Max := 0), t, Block(0, GenerationMaxDue, false, waited), 0, true);
    FirstMoves(launch, TimedOut(launch, 1, 0), t, Block(0, TimeoutDue, false, waited), 0, true);
  }

  /** Block 0 arrived a second time. */
  lemma FirstArrivesAgain(launch: Launch)
    requires CanLeak(launch)
    ensures Reachable(launch, State(TimedOut(launch, 2, 1), Crowd(launch.team, Block(1, Polling, true, 0), 0), OneWait(launch)))
  {
    FirstCounts(launch);
    FirstMoves(launch, TimedOut(launch, 1, 1), OneWait(launch), Block(1, Working, true, 0), 0, true);
  }

  /** And blocks 1 to k arrived once. */
  lemma {:induction false} OthersArrive(launch: Launch, k: nat)
    requires CanLeak(launch) && k + 1 < launch.team
    ensures Reachable(launch, State(TimedOut(launch, 2 + k, 1), Crowd(launch.team, Block(1, Polling, true, 0), k), OneWait(launch)))
  {
    if k == 0 {
      FirstArrivesAgain(launch);
    } else {
      OthersArrive(launch, k - 1);
      FirstTarget(launch);
      OneMoreArrives(launch, TimedOut(launch, 1 + k, 1), Block(1, Polling, true, 0), k, OneWait(launch));
    }
  }

  lemma ReachedBy(launch: Launch, s: State, i: nat, expired: bool, cells: Cells, blocks: seq<Block>, t: Tally)
    requires Reachable(launch, s) && i < launch.team && |s.blocks| == launch.team
    requires Step(launch, s, i, Clock(expired, 0)) == State(cells, blocks, t)
    ensures Reachable(launch, State(cells, blocks, t))
  {
    ReachableStep(launch, s, i, expired, State(cells, blocks, t));
  }

  lemma CrowdGrows(team: nat, first: Block, k: nat)
    requires 0 < k < team
    ensures Crowd(team, first, k - 1)[k] == Block(0, Working, true, 0)
    ensures Crowd(team, first, k - 1)[k := Block(0, Polling, true, 0)] == Crowd(team, first, k)
  {
  }

  lemma OneMoreArrives(launch: Launch, c: Cells, first: Block, k: nat, t: Tally)
    requires 0 < k < launch.team && c.arrivals + 1 < WORD
    requires Reachable(launch, State(c, Crowd(launch.team, first, k - 1), t))
    ensures Reachable(launch, State(c.(arrivals := c.arrivals + 1), Crowd(launch.team, first, k), t))
  {
    CrowdGrows(launch.team, first, k);
    var s := State(c, Crowd(launch.team, first, k - 1), t);
    ReachedBy(launch, s, k, false, c.(arrivals := c.arrivals + 1), Crowd(launch.team, first, k), t);
  }

  /** A state of the launch in which block 1 has left the first barrier, as whole, and the last block has not reached it. */
  function Leaked(launch: Launch): State
    requires launch.team >= 2
  {
    State(TimedOut(launch, launch.team, 1),
          Crowd(launch.team, Block(1, Polling, true, 0), launch.team - 2)[1 := Block(0, Leaving, true, 0)],
          OneWait(launch))
  }

  /** One block that leaves generation 0 on its deadline arrives twice, and stands in for the block that has not. */
  lemma LeakIsReached(launch: Launch)
    requires CanLeak(launch)
    ensures Reachable(launch, Leaked(launch)) && !WholeSafe(Leaked(launch))
  {
    FirstTarget(launch);
    OthersArrive(launch, launch.team - 2);
    var s := State(TimedOut(launch, launch.team, 1), Crowd(launch.team, Block(1, Polling, true, 0), launch.team - 2), OneWait(launch));
    ReachableStep(launch, s, 1, false, Leaked(launch));
    var blocks := Leaked(launch).blocks;
    assert Left(blocks[1]) && blocks[1].whole && Arrived(blocks[launch.team - 1]) == 0;
  }

  /**
   A launch can let a block out of a barrier as whole that some block has not reached exactly when
   it has three blocks or more and two generations or more. No count of timeouts comes into it.
   */
  lemma WholeSafeIff(launch: Launch)
    requires Countable(launch)
    ensures (forall s: State | Reachable(launch, s) :: WholeSafe(s)) <==> launch.team <= 2 || launch.generations <= 1
  {
    if CannotLeak(launch) {
      forall s: State | Reachable(launch, s)
        ensures WholeSafe(s)
      {
        var schedule: seq<Turn> :| ForTeam(launch, schedule) && Run(launch, schedule) == s;
        RunWholeSafe(launch, schedule);
      }
    } else {
      LeakIsReached(launch);
    }
  }

  /** The least launch that leaks: three blocks and two generations, of which one has timed out once. */
  lemma AfterATimeoutTheBarrierLeaks(deadlineNs: nat)
    ensures exists s: State | Reachable(Launch(3, 2, deadlineNs), s) ::
              && |s.blocks| == 3 && s.cells.timeouts == 1 && s.cells.waitMax == Clamped(deadlineNs + 1)
              && s.blocks[1].pc == Leaving && s.blocks[1].whole && s.blocks[1].generation == 0
              && Arrived(s.blocks[2]) == 0
  {
    LeakIsReached(Launch(3, 2, deadlineNs));
    assert Leaked(Launch(3, 2, deadlineNs)).blocks[2] == Block(0, Working, true, 0);
  }

  // ----- the budget ------------------------------------------------------------------------

  /** How long a block waits at one barrier before leaving it, and the sweep's shares of work. */
  const GEN_DEADLINE_US: nat := 2000
  const WORKS_US: seq<nat> := [0, 250]
  const SPREADS_PERMILLE: seq<nat> := [0, 1000]

  function LargestOf(values: seq<nat>): (m: nat)
    ensures forall i: nat | i < |values| :: values[i] <= m
    ensures m == 0 || m in values
  {
    if values == [] then 0 else Max(LargestOf(values[..|values| - 1]), values[|values| - 1])
  }

  function MaxWorkUs(works: seq<nat>, spreads: seq<nat>): nat {
    LargestOf(works) + LargestOf(works) * LargestOf(spreads) / 1000
  }

  /** A rank's work in one generation, as the device op computes it. */
  function RankWorkUs(work: nat, spread: nat, rank: nat, team: nat): nat
    requires team > 0
  {
    work + work * spread / 1000 * rank / (if team > 1 then team - 1 else 1)
  }

  lemma ProductMonotone(a: nat, b: nat, c: nat, d: nat)
    requires a <= b && c <= d
    ensures a * c <= b * d
  {
    assert b * d == a * c + a * (d - c) + (b - a) * d;
    assert a * (d - c) >= 0 && (b - a) * d >= 0;
  }

  lemma QuotientMonotone(a: nat, b: nat, c: nat)
    requires a <= b && c > 0
    ensures a / c <= b / c
  {
    var q := b / c;
    assert (q + 1) * c == q * c + c;
    if a / c > q {
      ProductMonotone(q + 1, a / c, c, c);
      assert false;
    }
  }

  lemma QuotientOfProduct(a: nat, b: nat, c: nat)
    requires b <= c && c > 0
    ensures a * b / c <= a
  {
    ProductMonotone(a, a, b, c);
    QuotientMonotone(a * b, a * c, c);
    assert a * c / c == a;
  }

  /** No rank of any arm of the sweep works longer in a generation than the budget allows for. */
  lemma BudgetCoversEveryArm(works: seq<nat>, spreads: seq<nat>, w: nat, sp: nat, rank: nat, team: nat)
    requires w < |works| && sp < |spreads| && rank < team
    ensures RankWorkUs(works[w], spreads[sp], rank, team) <= MaxWorkUs(works, spreads)
  {
    var work, spread := works[w], spreads[sp];
    var denom := if team > 1 then team - 1 else 1;
    QuotientOfProduct(work * spread / 1000, rank, denom);
    ProductMonotone(work, LargestOf(works), spread, LargestOf(spreads));
    QuotientMonotone(work * spread, LargestOf(works) * LargestOf(spreads), 1000);
  }

  function WorstSlotNs(generations: nat, kernelDeadlineNs: nat): nat {
    generations * ((GEN_DEADLINE_US + MaxWorkUs(WORKS_US, SPREADS_PERMILLE)) * 1000) + kernelDeadlineNs
  }

  /**
   The generation-lowering loop: the most generations, up to the number asked for, whose worst slot
   stays within half the watchdog's delay; and one generation when even that does not.
   */
  method LowerGenerations(requested: nat, limitNs: Option<nat>, kernelDeadlineNs: nat) returns (generations: nat)
    requires requested >= 1
    ensures 1 <= generations <= requested
    ensures limitNs == None ==> generations == requested
    ensures limitNs.Some? && generations > 1 ==> WorstSlotNs(generations, kernelDeadlineNs) <= limitNs.value / 2
    ensures limitNs.Some? ==> forall more: nat | generations < more <= requested ::
              WorstSlotNs(more, kernelDeadlineNs) > limitNs.value / 2
  {
    generations := requested;
    if limitNs.Some? {
      var allowedNs := limitNs.value / 2;
      while generations > 1 && WorstSlotNs(generations, kernelDeadlineNs) > allowedNs
        invariant 1 <= generations <= requested
        invariant forall more: nat | generations < more <= requested :: WorstSlotNs(more, kernelDeadlineNs) > allowedNs
      {
        generations := generations - 1;
      }
    }
  }
}
