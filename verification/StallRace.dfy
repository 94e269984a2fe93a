/**
 The stall instrument of benches/simc_cooperative.rs with its threads at work: a dispatcher that opens
 one dispatch after another, any number of workers that record the starts and finishes of its
 closures, and a watchdog that reports meanwhile. Every store and every load is a step or a moment of
 its own. A dispatch is joined before the next is history.
 */
module StallRace {
  import opened Layout
  import opened Options
  import opened StallReports

  // ----- the steps -------------------------------------------------------------------------

  /** How many stamps there are, and the workers' names. */
  datatype Setup = Setup(widest: nat, names: seq<string>)

  datatype Dispatch = Dispatch(arm: string, width: nat)

  /** Where the dispatcher is in `begin`: the arm, the width and the generation are stored one by one. */
  datatype Opening = Open | ArmDue(next: Dispatch) | WidthDue(next: Dispatch) | GenerationDue(next: Dispatch)

  /** Where a worker is with closure `index`. What it has loaded of the generation is `seen`. */
  datatype Pc =
    | Free
    | Taken(index: nat)                    // about to load the generation, in `record_start`
    | StampDue(index: nat, seen: nat)      // about to store it in `started`
    | AnnounceDue(index: nat, seen: nat)   // about to look at `ANNOUNCED_IN`
    | InsertDue(index: nat, seen: nat)     // about to enter its name
    | Body(index: nat)                     // in the closure; then about to load the generation again
    | FinishDue(index: nat, seen: nat)     // about to store it in `finished`

  datatype Worker = Worker(pc: Pc, announced: Option<nat>)

  /** `waiting` holds the closures no worker has taken; `history` lists the dispatches begun. */
  datatype State = State(arm: string, width: nat, generation: nat, started: seq<nat>, finished: seq<nat>,
                         threads: map<string, nat>, opening: Opening, waiting: set<nat>, workers: seq<Worker>,
                         history: seq<Dispatch>)

  datatype Action = Begin(next: Dispatch) | OpeningTurn | Take(worker: nat, index: nat) | Turn(worker: nat)

  function Initial(setup: Setup): State {
    State("", 0, 0, Zeros(setup.widest), Zeros(setup.widest), map[], Open, {},
          seq(|setup.names|, _ => Worker(Free, None)), [])
  }

  function Zeros(n: nat): (s: seq<nat>)
    ensures |s| == n && forall i: nat | i < n :: s[i] == 0
  {
    seq(n, _ => 0)
  }

  predicate Shaped(setup: Setup, s: State) {
    |s.started| == |s.finished| == setup.widest && |s.workers| == |setup.names|
  }

  predicate AllFree(workers: seq<Worker>) {
    forall w: nat | w < |workers| :: workers[w].pc == Free
  }

  /** The join: nothing of the last dispatch is left. */
  predicate Joined(s: State) {
    s.opening == Open && s.waiting == {} && AllFree(s.workers)
  }

  function Opened(s: State): State {
    match s.opening
    case Open => s
    case ArmDue(next) => s.(arm := next.arm, opening := WidthDue(next))
    case WidthDue(next) => s.(width := next.width, opening := GenerationDue(next))
    case GenerationDue(next) => s.(generation := s.generation + 1, waiting := Below(next.width), opening := Open)
  }

  function WithPc(s: State, w: nat, pc: Pc): State
    requires w < |s.workers|
  {
    s.(workers := s.workers[w := s.workers[w].(pc := pc)])
  }

  function Worked(setup: Setup, s: State, w: nat): State
    requires Shaped(setup, s) && w < |s.workers|
  {
    match s.workers[w].pc
    case Free => s
    case Taken(i) => WithPc(s, w, if i < setup.widest then StampDue(i, s.generation) else AnnounceDue(i, s.generation))
    case StampDue(i, g) =>
      if i < setup.widest then WithPc(s.(started := s.started[i := g]), w, AnnounceDue(i, g)) else s
    case AnnounceDue(i, g) =>
      if s.workers[w].announced == Some(g) then WithPc(s, w, Body(i))
      else s.(workers := s.workers[w := Worker(InsertDue(i, g), Some(g))])
    case InsertDue(i, g) => WithPc(s.(threads := s.threads[setup.names[w] := g]), w, Body(i))
    case Body(i) => WithPc(s, w, if i < setup.widest then FinishDue(i, s.generation) else Free)
    case FinishDue(i, g) =>
      if i < setup.widest then WithPc(s.(finished := s.finished[i := g]), w, Free) else s
  }

  function Step(setup: Setup, s: State, a: Action): (s': State)
    requires Shaped(setup, s)
    ensures Shaped(setup, s')
  {
    match a
    case Begin(next) => if Joined(s) then s.(opening := ArmDue(next), history := s.history + [next]) else s
    case OpeningTurn => Opened(s)
    case Take(w, i) =>
      if w < |s.workers| && s.workers[w].pc == Free && i in s.waiting then WithPc(s.(waiting := s.waiting - {i}), w, Taken(i))
      else s
    case Turn(w) => if w < |s.workers| then Worked(setup, s, w) else s
  }

  function Run(setup: Setup, schedule: seq<Action>): (s: State)
    ensures Shaped(setup, s)
  {
    if schedule == [] then Initial(setup)
    else Step(setup, Run(setup, schedule[..|schedule| - 1]), schedule[|schedule| - 1])
  }

  // ----- what every run keeps --------------------------------------------------------------

  /** The arm and the width of the dispatch in flight, or of the next as far as they have been stored. */
  predicate OpeningInv(s: State) {
    match s.opening
    case Open => |s.history| == s.generation && (s.generation > 0 ==> s.arm == Current(s).arm && s.width == Current(s).width)
    case ArmDue(next) =>
      && |s.history| == s.generation + 1 && s.history[s.generation] == next
      && (s.generation > 0 ==> s.arm == Current(s).arm && s.width == Current(s).width)
    case WidthDue(next) =>
      && |s.history| == s.generation + 1 && s.history[s.generation] == next
      && s.arm == next.arm && (s.generation > 0 ==> s.width == Current(s).width)
    case GenerationDue(next) =>
      && |s.history| == s.generation + 1 && s.history[s.generation] == next
      && s.arm == next.arm && s.width == next.width
  }

  function Current(s: State): Dispatch
    requires 0 < s.generation <= |s.history|
  {
    s.history[s.generation - 1]
  }

  /** Closures are only at work in an open dispatch, and know of no generation but its. */
  ghost predicate WorkInv(s: State) {
    && (s.opening != Open ==> s.waiting == {} && AllFree(s.workers))
    && (s.generation == 0 ==> s.waiting == {} && AllFree(s.workers))
    && (forall w: nat | w < |s.workers| && Knows(s.workers[w].pc) :: s.workers[w].pc.seen == s.generation)
  }

  predicate Knows(pc: Pc) {
    pc.StampDue? || pc.AnnounceDue? || pc.InsertDue? || pc.FinishDue?
  }

  /** The worker has stamped the start of closure i and not yet its finish. */
  predicate InClosure(pc: Pc, i: nat) {
    (pc.AnnounceDue? || pc.InsertDue? || pc.Body? || pc.FinishDue?) && pc.index == i
  }

  predicate BeforeStart(pc: Pc, i: nat) {
    (pc.Taken? || pc.StampDue?) && pc.index == i
  }

  ghost predicate SomeoneIn(workers: seq<Worker>, i: nat) {
    exists w: nat :: w < |workers| && InClosure(workers[w].pc, i)
  }

  ghost predicate StampInv(s: State, i: nat)
    requires i < |s.started| && i < |s.finished|
  {
    && s.finished[i] <= s.started[i] <= s.generation
    && (s.finished[i] < s.started[i] ==> s.started[i] == s.generation && SomeoneIn(s.workers, i))
  }

  /** An index is with one worker at most, and its start is stamped once in a dispatch. */
  ghost predicate OnceInv(s: State, i: nat)
    requires i < |s.started|
  {
    && (i in s.waiting ==> s.started[i] < s.generation)
    && (forall w: nat | w < |s.workers| && BeforeStart(s.workers[w].pc, i) :: s.started[i] < s.generation && i !in s.waiting)
    && (forall w: nat | w < |s.workers| && InClosure(s.workers[w].pc, i) :: s.started[i] == s.generation && i !in s.waiting)
    && ApartInv(s.workers, i)
  }

  ghost predicate ApartInv(workers: seq<Worker>, i: nat) {
    forall v: nat, w: nat | v < w < |workers| :: !(Has(workers[v].pc, i) && Has(workers[w].pc, i))
  }

  predicate Has(pc: Pc, i: nat) {
    BeforeStart(pc, i) || InClosure(pc, i)
  }

  /** A worker in a closure has its name down for this dispatch, or is about to put it down. */
  ghost predicate ThreadInv(setup: Setup, s: State, w: nat)
    requires Shaped(setup, s) && w < |s.workers|
  {
    var worker := s.workers[w];
    && (worker.announced.Some? ==>
          && worker.announced.value <= s.generation
          && (worker.pc.InsertDue? || (setup.names[w] in s.threads && s.threads[setup.names[w]] >= worker.announced.value)))
    && (worker.pc.InsertDue? || worker.pc.Body? || worker.pc.FinishDue? ==> worker.announced == Some(s.generation))
    && (setup.names[w] in s.threads ==> s.threads[setup.names[w]] <= s.generation)
  }

  ghost predicate Inv(setup: Setup, s: State)
    requires Shaped(setup, s)
  {
    && OpeningInv(s) && WorkInv(s)
    && (forall i: nat | i < setup.widest :: StampInv(s, i))
    && (forall i: nat | i < setup.widest :: OnceInv(s, i))
    && (forall w: nat | w < |s.workers| :: ThreadInv(setup, s, w))
    && NamesInv(s)
  }

  ghost predicate NamesInv(s: State) {
    forall name: string | name in s.threads :: s.threads[name] <= s.generation
  }

  // ----- a step at a time ------------------------------------------------------------------

  /** A worker's turn, or its taking a closure, leaves what the dispatcher stores alone. */
  lemma WorkersLeaveOpening(setup: Setup, s: State, a: Action)
    requires Shaped(setup, s) && (a.Turn? || a.Take?)
    ensures var s' := Step(setup, s, a);
            && s'.arm == s.arm && s'.width == s.width && s'.generation == s.generation
            && s'.opening == s.opening && s'.history == s.history
  {
  }

  lemma OpeningStep(setup: Setup, s: State, a: Action)
    requires Shaped(setup, s) && OpeningInv(s)
    ensures OpeningInv(Step(setup, s, a))
  {
    if a.Turn? || a.Take? {
      WorkersLeaveOpening(setup, s, a);
    }
  }

  lemma WorkStep(setup: Setup, s: State, a: Action)
    requires Shaped(setup, s) && WorkInv(s)
    ensures WorkInv(Step(setup, s, a))
  {
  }

  lemma StampTurn(setup: Setup, s: State, w: nat, i: nat)
    requires Shaped(setup, s) && WorkInv(s) && w < |s.workers| && i < setup.widest && StampInv(s, i) && OnceInv(s, i)
    ensures StampInv(Worked(setup, s, w), i)
  {
    var s' := Worked(setup, s, w);
    if s'.finished[i] < s'.started[i] {
      if s.finished[i] < s.started[i] {
        var v: nat :| v < |s.workers| && InClosure(s.workers[v].pc, i);
        assert InClosure(s'.workers[v].pc, i);
      } else {
        assert InClosure(s'.workers[w].pc, i);
      }
    }
  }

  lemma StampStep(setup: Setup, s: State, a: Action, i: nat)
    requires Shaped(setup, s) && WorkInv(s) && i < setup.widest && StampInv(s, i) && OnceInv(s, i)
    ensures StampInv(Step(setup, s, a), i)
  {
    match a
    case Turn(w) => if w < |s.workers| { StampTurn(setup, s, w, i); }
    case Take(w, k) =>
      var s' := Step(setup, s, a);
      if s'.finished[i] < s'.started[i] {
        var v: nat :| v < |s.workers| && InClosure(s.workers[v].pc, i);
        assert InClosure(s'.workers[v].pc, i);
      }
    case OpeningTurn =>
      if s.finished[i] < s.started[i] {
        var v: nat :| v < |s.workers| && InClosure(s.workers[v].pc, i);
        assert s.opening == Open;
      }
    case Begin(_) =>
  }

  lemma ApartTurn(workers: seq<Worker>, w: nat, worker: Worker, i: nat)
    requires w < |workers| && ApartInv(workers, i) && (Has(worker.pc, i) ==> Has(workers[w].pc, i))
    ensures ApartInv(workers[w := worker], i)
  {
  }

  lemma OnceTurn(setup: Setup, s: State, w: nat, i: nat)
    requires Shaped(setup, s) && WorkInv(s) && w < |s.workers| && i < setup.widest && OnceInv(s, i)
    ensures OnceInv(Worked(setup, s, w), i)
  {
    var s' := Worked(setup, s, w);
    ApartTurn(s.workers, w, s'.workers[w], i);
    assert s'.workers == s.workers[w := s'.workers[w]];
  }

  lemma OnceStep(setup: Setup, s: State, a: Action, i: nat)
    requires Shaped(setup, s) && WorkInv(s) && i < setup.widest && StampInv(s, i) && OnceInv(s, i)
    ensures OnceInv(Step(setup, s, a), i)
  {
    match a
    case Turn(w) => if w < |s.workers| { OnceTurn(setup, s, w, i); }
    case _ =>
  }

  lemma ThreadStep(setup: Setup, s: State, a: Action, w: nat)
    requires Shaped(setup, s) && WorkInv(s) && w < |s.workers| && ThreadInv(setup, s, w)
    requires forall v: nat | v < |s.workers| :: ThreadInv(setup, s, v)
    ensures ThreadInv(setup, Step(setup, s, a), w)
  {
  }

  lemma NamesStep(setup: Setup, s: State, a: Action)
    requires Shaped(setup, s) && WorkInv(s) && NamesInv(s)
    ensures NamesInv(Step(setup, s, a))
  {
  }

  lemma StepInv(setup: Setup, s: State, a: Action)
    requires Shaped(setup, s) && Inv(setup, s)
    ensures Inv(setup, Step(setup, s, a))
  {
    OpeningStep(setup, s, a);
    WorkStep(setup, s, a);
    NamesStep(setup, s, a);
    forall i: nat | i < setup.widest
      ensures StampInv(Step(setup, s, a), i) && OnceInv(Step(setup, s, a), i)
    {
      StampStep(setup, s, a, i);
      OnceStep(setup, s, a, i);
    }
    forall w: nat | w < |s.workers|
      ensures ThreadInv(setup, Step(setup, s, a), w)
    {
      ThreadStep(setup, s, a, w);
    }
  }

  lemma {:induction false} RunInv(setup: Setup, schedule: seq<Action>)
    ensures Inv(setup, Run(setup, schedule))
  {
    if schedule != [] {
      RunInv(setup, schedule[..|schedule| - 1]);
      StepInv(setup, Run(setup, schedule[..|schedule| - 1]), schedule[|schedule| - 1]);
    }
  }

  // ----- moments of a run ------------------------------------------------------------------

  function At(setup: Setup, schedule: seq<Action>, t: nat): (s: State)
    requires t <= |schedule|
    ensures Shaped(setup, s)
  {
    Run(setup, schedule[..t])
  }

  lemma NextMoment(setup: Setup, schedule: seq<Action>, t: nat)
    requires t < |schedule|
    ensures At(setup, schedule, t + 1) == Step(setup, At(setup, schedule, t), schedule[t])
    ensures Inv(setup, At(setup, schedule, t)) && Inv(setup, At(setup, schedule, t + 1))
  {
    assert schedule[..t + 1][..t] == schedule[..t];
    RunInv(setup, schedule[..t]);
    RunInv(setup, schedule[..t + 1]);
  }

  lemma StepGrows(setup: Setup, s: State, a: Action, i: nat)
    requires Shaped(setup, s) && WorkInv(s) && i < setup.widest && StampInv(s, i)
    ensures var s' := Step(setup, s, a);
            && s.generation <= s'.generation <= s.generation + 1
            && s.started[i] <= s'.started[i] && s.finished[i] <= s'.finished[i]
  {
  }

  /** Stamps and the generation only grow. */
  lemma {:induction false} Grows(setup: Setup, schedule: seq<Action>, t: nat, u: nat, i: nat)
    requires t <= u <= |schedule| && i < setup.widest
    ensures var s, s' := At(setup, schedule, t), At(setup, schedule, u);
            && s.generation <= s'.generation && s.started[i] <= s'.started[i] && s.finished[i] <= s'.finished[i]
  {
    if t < u {
      Grows(setup, schedule, t, u - 1, i);
      NextMoment(setup, schedule, u - 1);
      StepGrows(setup, At(setup, schedule, u - 1), schedule[u - 1], i);
    }
  }

  /** A generation is left behind only once whatever had started in it has finished. */
  lemma LeftBehind(setup: Setup, s: State, a: Action, i: nat)
    requires Shaped(setup, s) && WorkInv(s) && i < setup.widest && StampInv(s, i)
    requires Step(setup, s, a).generation > s.generation
    ensures s.finished[i] == s.started[i] == Step(setup, s, a).finished[i]
  {
    assert AllFree(s.workers);
    assert !SomeoneIn(s.workers, i);
  }

  lemma {:induction false} FinishedBefore(setup: Setup, schedule: seq<Action>, t: nat, u: nat, i: nat)
    requires t <= u <= |schedule| && i < setup.widest
    requires At(setup, schedule, t).generation < At(setup, schedule, u).generation
    ensures At(setup, schedule, t).started[i] <= At(setup, schedule, u).finished[i]
  {
    NextMoment(setup, schedule, u - 1);
    var s := At(setup, schedule, u - 1);
    if At(setup, schedule, t).generation < s.generation {
      FinishedBefore(setup, schedule, t, u - 1, i);
      Grows(setup, schedule, u - 1, u, i);
    } else {
      Grows(setup, schedule, t, u - 1, i);
      LeftBehind(setup, s, schedule[u - 1], i);
    }
  }

  /** The step that stamps closure i's start with generation g. */
  predicate StampsStart(s: State, a: Action, i: nat, g: nat) {
    a.Turn? && a.worker < |s.workers| && s.workers[a.worker].pc == StampDue(i, g)
  }

  ghost predicate StartsBetween(setup: Setup, schedule: seq<Action>, t: nat, u: nat, i: nat, g: nat) {
    exists k: nat :: t <= k < u && k < |schedule| && StampsStart(At(setup, schedule, k), schedule[k], i, g)
  }

  lemma OnlyStampsStart(setup: Setup, s: State, a: Action, i: nat)
    requires Shaped(setup, s) && i < setup.widest && Step(setup, s, a).started[i] != s.started[i]
    ensures StampsStart(s, a, i, Step(setup, s, a).started[i])
  {
  }

  lemma StampsNow(setup: Setup, schedule: seq<Action>, t: nat, k: nat, i: nat)
    requires t <= k < |schedule| && i < setup.widest
    requires At(setup, schedule, k).started[i] != At(setup, schedule, k + 1).started[i]
    ensures StartsBetween(setup, schedule, t, k + 1, i, At(setup, schedule, k + 1).started[i])
  {
    NextMoment(setup, schedule, k);
    OnlyStampsStart(setup, At(setup, schedule, k), schedule[k], i);
  }

  lemma StartsByThen(setup: Setup, schedule: seq<Action>, t: nat, u: nat, v: nat, i: nat, g: nat)
    requires StartsBetween(setup, schedule, t, u, i, g) && u <= v
    ensures StartsBetween(setup, schedule, t, v, i, g)
  {
  }

  lemma {:induction false} StampIsStored(setup: Setup, schedule: seq<Action>, t: nat, u: nat, i: nat, g: nat)
    requires t <= u <= |schedule| && i < setup.widest
    requires At(setup, schedule, t).started[i] != g && At(setup, schedule, u).started[i] == g
    ensures StartsBetween(setup, schedule, t, u, i, g)
  {
    if At(setup, schedule, u - 1).started[i] == g {
      StampIsStored(setup, schedule, t, u - 1, i, g);
      StartsByThen(setup, schedule, t, u - 1, u, i, g);
    } else {
      StampsNow(setup, schedule, t, u - 1, i);
    }
  }

  /** And no earlier moment had it, and every later one has it or more. */
  lemma StampIsFresh(setup: Setup, schedule: seq<Action>, t: nat, k: nat, u: nat, i: nat, g: nat)
    requires t <= k < u <= |schedule| && i < setup.widest && StampsStart(At(setup, schedule, k), schedule[k], i, g)
    ensures At(setup, schedule, t).started[i] < g == At(setup, schedule, k).generation
    ensures g <= At(setup, schedule, u).started[i]
  {
    NextMoment(setup, schedule, k);
    var s := At(setup, schedule, k);
    assert OnceInv(s, i) && BeforeStart(s.workers[schedule[k].worker].pc, i);
    assert Knows(s.workers[schedule[k].worker].pc);
    Grows(setup, schedule, t, k, i);
    Grows(setup, schedule, k + 1, u, i);
  }

  // ----- the report ------------------------------------------------------------------------

  /**
   The moments of `report`'s loads: the generation, the width, the arm; `started` of each index for
   the first list; then, index by index for the second, `started` again and `finished`.
   */
  datatype Loads = Loads(generation: nat, width: nat, arm: nat, first: seq<nat>, second: seq<nat>, finish: seq<nat>)

  /** What the report takes the dispatch and the fan-out to be. */
  function Reported(setup: Setup, schedule: seq<Action>, loads: Loads): (g: nat)
    requires loads.generation <= |schedule|
  {
    At(setup, schedule, loads.generation).generation
  }

  function FanOut(setup: Setup, schedule: seq<Action>, loads: Loads): (n: nat)
    requires loads.width <= |schedule|
    ensures n <= setup.widest
  {
    Min(At(setup, schedule, loads.width).width, setup.widest)
  }

  /** The order the program makes them in. */
  ghost predicate LoadOrder(setup: Setup, schedule: seq<Action>, loads: Loads) {
    && loads.generation <= loads.width <= loads.arm <= |schedule|
    && var n := FanOut(setup, schedule, loads);
    && |loads.first| == |loads.second| == |loads.finish| == n
    && (forall i: nat | i < n :: loads.arm <= loads.first[i] && loads.second[i] <= loads.finish[i] <= |schedule|)
    && (forall i: nat, j: nat | i < n && j < n :: loads.first[i] <= loads.second[j])
    && (forall i: nat, j: nat | i < j < n :: loads.first[i] <= loads.first[j] && loads.finish[i] <= loads.second[j])
  }

  /** Index i is in the list of closures that never started. */
  predicate InNever(setup: Setup, schedule: seq<Action>, loads: Loads, i: nat)
    requires loads.generation <= |schedule| && i < |loads.first| && loads.first[i] <= |schedule| && i < setup.widest
  {
    At(setup, schedule, loads.first[i]).started[i] != Reported(setup, schedule, loads)
  }

  /** Index i is in the list of closures started and not finished. */
  predicate InUnfinished(setup: Setup, schedule: seq<Action>, loads: Loads, i: nat)
    requires loads.generation <= |schedule| && i < setup.widest
    requires i < |loads.second| && loads.second[i] <= |schedule| && i < |loads.finish| && loads.finish[i] <= |schedule|
  {
    && At(setup, schedule, loads.second[i]).started[i] == Reported(setup, schedule, loads)
    && At(setup, schedule, loads.finish[i]).finished[i] != Reported(setup, schedule, loads)
  }

  ghost predicate InBoth(setup: Setup, schedule: seq<Action>, loads: Loads, i: nat)
    requires LoadOrder(setup, schedule, loads) && i < FanOut(setup, schedule, loads)
  {
    InNever(setup, schedule, loads, i) && InUnfinished(setup, schedule, loads, i)
  }

  /** The dispatch reported is still the one in flight when index i's last load is made. */
  predicate StillInFlight(setup: Setup, schedule: seq<Action>, loads: Loads, i: nat)
    requires loads.generation <= |schedule| && i < |loads.finish| && loads.finish[i] <= |schedule|
  {
    At(setup, schedule, loads.finish[i]).generation == Reported(setup, schedule, loads)
  }

  /**
   An index is in both lists exactly when its closure started between the two loads of its start and
   is in the second: while the dispatch is in flight, when it had not finished at its last load.
   */
  lemma InBothIff(setup: Setup, schedule: seq<Action>, loads: Loads, i: nat)
    requires LoadOrder(setup, schedule, loads) && i < FanOut(setup, schedule, loads)
    ensures var g := Reported(setup, schedule, loads);
            && var starts := StartsBetween(setup, schedule, loads.first[i], loads.second[i], i, g);
            && (InBoth(setup, schedule, loads, i) <==> starts && InUnfinished(setup, schedule, loads, i))
            && (StillInFlight(setup, schedule, loads, i) ==>
                  (InBoth(setup, schedule, loads, i) <==> starts && At(setup, schedule, loads.finish[i]).finished[i] < g))
  {
    var g, t, u, v := Reported(setup, schedule, loads), loads.first[i], loads.second[i], loads.finish[i];
    Grows(setup, schedule, u, v, i);
    RunInv(setup, schedule[..v]);
    RunInv(setup, schedule[..u]);
    assert StampInv(At(setup, schedule, v), i) && StampInv(At(setup, schedule, u), i);
    if InBoth(setup, schedule, loads, i) {
      StampIsStored(setup, schedule, t, u, i, g);
    }
    if StartsBetween(setup, schedule, t, u, i, g) {
      var k: nat :| t <= k < u && k < |schedule| && StampsStart(At(setup, schedule, k), schedule[k], i, g);
      StampIsFresh(setup, schedule, t, k, u, i, g);
    }
  }

  /** An index in neither list has finished, in the dispatch reported or in a later one. */
  lemma InNeitherHasFinished(setup: Setup, schedule: seq<Action>, loads: Loads, i: nat)
    requires LoadOrder(setup, schedule, loads) && i < FanOut(setup, schedule, loads)
    requires !InNever(setup, schedule, loads, i) && !InUnfinished(setup, schedule, loads, i)
    ensures At(setup, schedule, loads.finish[i]).finished[i] >= Reported(setup, schedule, loads)
  {
    var g, t, u, v := Reported(setup, schedule, loads), loads.first[i], loads.second[i], loads.finish[i];
    Grows(setup, schedule, loads.generation, t, i);
    Grows(setup, schedule, t, u, i);
    Grows(setup, schedule, u, v, i);
    if At(setup, schedule, u).started[i] != g {
      MovedOnHasFinished(setup, schedule, t, u, i, g);
    }
  }

  /** A start overwritten by a later dispatch's had its finish before that. */
  lemma MovedOnHasFinished(setup: Setup, schedule: seq<Action>, t: nat, u: nat, i: nat, g: nat)
    requires t <= u <= |schedule| && i < setup.widest && g <= At(setup, schedule, t).generation
    requires At(setup, schedule, t).started[i] == g != At(setup, schedule, u).started[i]
    ensures At(setup, schedule, u).finished[i] >= g
  {
    RunInv(setup, schedule[..t]);
    RunInv(setup, schedule[..u]);
    assert StampInv(At(setup, schedule, t), i) && StampInv(At(setup, schedule, u), i);
    Grows(setup, schedule, t, u, i);
    if At(setup, schedule, t).generation == g {
      FinishedBefore(setup, schedule, t, u, i);
    }
  }

  // ----- the printed lists -----------------------------------------------------------------

  /** The indices that are marked, in order. */
  function Listed(marks: seq<bool>): seq<nat> {
    if marks == [] then []
    else Listed(marks[..|marks| - 1]) + if marks[|marks| - 1] then [|marks| - 1] else []
  }

  lemma {:induction false} ListedIff(marks: seq<bool>, i: nat)
    ensures i in Listed(marks) <==> i < |marks| && marks[i]
  {
    if marks != [] {
      ListedIff(marks[..|marks| - 1], i);
    }
  }

  function Neither(a: seq<bool>, b: seq<bool>): (rest: seq<bool>)
    requires |a| == |b|
    ensures |rest| == |a|
  {
    if a == [] then [] else Neither(a[..|a| - 1], b[..|b| - 1]) + [!a[|a| - 1] && !b[|b| - 1]]
  }

  lemma {:induction false} NeitherIff(a: seq<bool>, b: seq<bool>, i: nat)
    requires |a| == |b| && i < |a|
    ensures Neither(a, b)[i] <==> !a[i] && !b[i]
  {
    if i < |a| - 1 {
      NeitherIff(a[..|a| - 1], b[..|b| - 1], i);
    }
  }

  predicate Apart(a: seq<bool>, b: seq<bool>)
    requires |a| == |b|
  {
    forall i: nat | i < |a| :: !(a[i] && b[i])
  }

  lemma ListedOneMore(marks: seq<bool>, mark: bool)
    ensures |Listed(marks + [mark])| == |Listed(marks)| + if mark then 1 else 0
  {
    assert (marks + [mark])[..|marks|] == marks;
  }

  lemma NeitherOneMore(a: seq<bool>, b: seq<bool>, x: bool, y: bool)
    requires |a| == |b|
    ensures Neither(a + [x], b + [y]) == Neither(a, b) + [!x && !y]
    ensures Apart(a + [x], b + [y]) <==> Apart(a, b) && !(x && y)
  {
    assert (a + [x])[..|a|] == a && (b + [y])[..|b|] == b;
    var n := |a|;
    assert (a + [x])[n] == x && (b + [y])[n] == y;
    assert forall i: nat | i < n :: (a + [x])[i] == a[i] && (b + [y])[i] == b[i];
  }

  function Shown(a: seq<bool>, b: seq<bool>): nat
    requires |a| == |b|
  {
    |Listed(a)| + |Listed(b)| + |Listed(Neither(a, b))|
  }

  lemma ShownOneMore(a: seq<bool>, b: seq<bool>, x: bool, y: bool)
    requires |a| == |b|
    ensures Shown(a + [x], b + [y]) == Shown(a, b) + if x && y then 2 else 1
  {
    ListedOneMore(a, x);
    ListedOneMore(b, y);
    NeitherOneMore(a, b, x, y);
    ListedOneMore(Neither(a, b), !x && !y);
  }

  /** Two lists and the rest are as many as there are indices exactly when no index is in both lists. */
  lemma {:induction false} CountIff(a: seq<bool>, b: seq<bool>)
    requires |a| == |b|
    ensures Shown(a, b) >= |a|
    ensures Shown(a, b) == |a| <==> Apart(a, b)
  {
    if a != [] {
      var n := |a| - 1;
      var a0, b0, x, y := a[..n], b[..n], a[n], b[n];
      CountIff(a0, b0);
      ShownOneMore(a0, b0, x, y);
      NeitherOneMore(a0, b0, x, y);
      LastOff(a);
      LastOff(b);
    }
  }

  lemma LastOff(a: seq<bool>)
    requires a != []
    ensures a[..|a| - 1] + [a[|a| - 1]] == a
  {
  }

  /** The marks of the two filters. */
  function NeverMarks(setup: Setup, schedule: seq<Action>, loads: Loads): (marks: seq<bool>)
    requires LoadOrder(setup, schedule, loads)
    ensures |marks| == FanOut(setup, schedule, loads)
  {
    seq(FanOut(setup, schedule, loads), i requires 0 <= i < FanOut(setup, schedule, loads) => InNever(setup, schedule, loads, i))
  }

  function UnfinishedMarks(setup: Setup, schedule: seq<Action>, loads: Loads): (marks: seq<bool>)
    requires LoadOrder(setup, schedule, loads)
    ensures |marks| == FanOut(setup, schedule, loads)
  {
    seq(FanOut(setup, schedule, loads), i requires 0 <= i < FanOut(setup, schedule, loads) => InUnfinished(setup, schedule, loads, i))
  }

  /**
   The two printed lists and the rest partition the fan-out if and only if no index is in both lists,
   that is if and only if no closure is stamped between the loads of its start and goes on unfinished.
   */
  lemma PartitionIff(setup: Setup, schedule: seq<Action>, loads: Loads)
    requires LoadOrder(setup, schedule, loads)
    ensures var never, unfinished := NeverMarks(setup, schedule, loads), UnfinishedMarks(setup, schedule, loads);
            |Listed(never)| + |Listed(unfinished)| + |Listed(Neither(never, unfinished))| == FanOut(setup, schedule, loads)
            <==> forall i: nat | i < FanOut(setup, schedule, loads) :: !InBoth(setup, schedule, loads, i)
  {
    var never, unfinished := NeverMarks(setup, schedule, loads), UnfinishedMarks(setup, schedule, loads);
    CountIff(never, unfinished);
    assert forall i: nat | i < FanOut(setup, schedule, loads) ::
        InBoth(setup, schedule, loads, i) <==> never[i] && unfinished[i];
  }

  /** What neither printed list shows has finished. */
  lemma RestHasFinished(setup: Setup, schedule: seq<Action>, loads: Loads, i: nat)
    requires LoadOrder(setup, schedule, loads)
    requires i in Listed(Neither(NeverMarks(setup, schedule, loads), UnfinishedMarks(setup, schedule, loads)))
    ensures i < FanOut(setup, schedule, loads)
    ensures At(setup, schedule, loads.finish[i]).finished[i] >= Reported(setup, schedule, loads)
  {
    var never, unfinished := NeverMarks(setup, schedule, loads), UnfinishedMarks(setup, schedule, loads);
    ListedIff(Neither(never, unfinished), i);
    NeitherIff(never, unfinished, i);
    InNeitherHasFinished(setup, schedule, loads, i);
  }

  // ----- a stall that lasts ----------------------------------------------------------------

  /** Nothing is stamped, and no dispatch opened, from the first load of the report to its last. */
  ghost predicate Stalled(setup: Setup, schedule: seq<Action>, loads: Loads)
    requires loads.generation <= |schedule|
  {
    forall t: nat | loads.generation <= t <= |schedule| ::
      var s, s' := At(setup, schedule, loads.generation), At(setup, schedule, t);
      s'.generation == s.generation && s'.width == s.width && s'.started == s.started && s'.finished == s.finished
  }

  /** Then the report shows the flags of the dispatch, and its lists and the rest partition the fan-out. */
  lemma StalledReportIsExact(setup: Setup, schedule: seq<Action>, loads: Loads, i: nat)
    requires LoadOrder(setup, schedule, loads) && Stalled(setup, schedule, loads) && i < FanOut(setup, schedule, loads)
    ensures var s := At(setup, schedule, loads.generation);
            var started, finished := Stamped(s.started, s.generation), Stamped(s.finished, s.generation);
            && (InNever(setup, schedule, loads, i) <==> i !in started)
            && (InUnfinished(setup, schedule, loads, i) <==> i in started && i !in finished)
            && (InNeither(setup, schedule, loads, i) <==> i in finished)
            && !InBoth(setup, schedule, loads, i)
  {
    var s := At(setup, schedule, loads.generation);
    RunInv(setup, schedule[..loads.generation]);
    assert StampInv(s, i);
    assert At(setup, schedule, loads.first[i]).started == s.started;
    assert At(setup, schedule, loads.second[i]).started == s.started;
    assert At(setup, schedule, loads.finish[i]).finished == s.finished;
  }

  predicate InNeither(setup: Setup, schedule: seq<Action>, loads: Loads, i: nat)
    requires LoadOrder(setup, schedule, loads) && i < FanOut(setup, schedule, loads)
  {
    !InNever(setup, schedule, loads, i) && !InUnfinished(setup, schedule, loads, i)
  }

  // ----- the threads -----------------------------------------------------------------------

  /**
   An index stamped and not finished has one worker in its closure, whose name is down for the
   dispatch unless the worker has yet to put it there.
   */
  lemma RunnerIsListed(setup: Setup, schedule: seq<Action>, t: nat, i: nat) returns (w: nat)
    requires t <= |schedule| && i < setup.widest
    requires At(setup, schedule, t).finished[i] != At(setup, schedule, t).started[i]
    ensures var s := At(setup, schedule, t);
            && s.started[i] == s.generation && w < |s.workers| && InClosure(s.workers[w].pc, i)
            && (forall v: nat | v < |s.workers| && Has(s.workers[v].pc, i) :: v == w)
            && (setup.names[w] in Seen(s.threads, s.generation) || s.workers[w].pc.AnnounceDue? || s.workers[w].pc.InsertDue?)
  {
    RunInv(setup, schedule[..t]);
    var s := At(setup, schedule, t);
    assert StampInv(s, i) && OnceInv(s, i);
    w :| w < |s.workers| && InClosure(s.workers[w].pc, i);
    assert ThreadInv(setup, s, w);
  }

  // ----- the arm and the width -------------------------------------------------------------

  lemma StepAppends(setup: Setup, s: State, a: Action)
    requires Shaped(setup, s)
    ensures s.history <= Step(setup, s, a).history && s.generation <= Step(setup, s, a).generation
  {
    if a.Turn? || a.Take? {
      WorkersLeaveOpening(setup, s, a);
    }
  }

  lemma {:induction false} HistoryGrows(setup: Setup, schedule: seq<Action>, t: nat, u: nat)
    requires t <= u <= |schedule|
    ensures At(setup, schedule, t).history <= At(setup, schedule, u).history
    ensures At(setup, schedule, t).generation <= At(setup, schedule, u).generation
  {
    if t < u {
      HistoryGrows(setup, schedule, t, u - 1);
      NextMoment(setup, schedule, u - 1);
      StepAppends(setup, At(setup, schedule, u - 1), schedule[u - 1]);
    }
  }

  /** A closure at work finds the arm and the width of its own dispatch, whose generation it knows. */
  lemma ClosureFindsItsOwn(setup: Setup, schedule: seq<Action>, t: nat, w: nat)
    requires t <= |schedule| && w < |setup.names| && At(setup, schedule, t).workers[w].pc != Free
    ensures var s := At(setup, schedule, t);
            && 0 < s.generation == |s.history|
            && s.arm == Current(s).arm && s.width == Current(s).width
            && (Knows(s.workers[w].pc) ==> s.workers[w].pc.seen == s.generation)
  {
    RunInv(setup, schedule[..t]);
  }

  /**
   Whoever reads generation g and then the width and the arm, as the report does, never finds those
   of an earlier dispatch, and finds g's own as long as no later dispatch has been begun.
   */
  lemma ReaderFindsItsOwn(setup: Setup, schedule: seq<Action>, loads: Loads) returns (d: nat, d': nat)
    requires loads.generation <= loads.width <= loads.arm <= |schedule| && Reported(setup, schedule, loads) > 0
    ensures var g, s, s' := Reported(setup, schedule, loads), At(setup, schedule, loads.width), At(setup, schedule, loads.arm);
            && g <= |s.history| <= |s'.history|
            && g <= d <= |s.history| && s.width == s.history[d - 1].width
            && g <= d' <= |s'.history| && s'.arm == s'.history[d' - 1].arm
            && (|s'.history| == g ==> s.width == s'.history[g - 1].width && s'.arm == s'.history[g - 1].arm)
  {
    var g, s, s' := Reported(setup, schedule, loads), At(setup, schedule, loads.width), At(setup, schedule, loads.arm);
    HistoryGrows(setup, schedule, loads.generation, loads.width);
    HistoryGrows(setup, schedule, loads.width, loads.arm);
    RunInv(setup, schedule[..loads.width]);
    RunInv(setup, schedule[..loads.arm]);
    d := StoredWidth(s);
    d' := StoredArm(s');
  }

  /** The dispatch whose width is stored: the one in flight, or the next once its width is. */
  lemma StoredWidth(s: State) returns (d: nat)
    requires OpeningInv(s) && s.generation > 0
    ensures s.generation <= d <= |s.history| && s.width == s.history[d - 1].width
  {
    d := if s.opening.GenerationDue? then s.generation + 1 else s.generation;
  }

  lemma StoredArm(s: State) returns (d: nat)
    requires OpeningInv(s) && s.generation > 0
    ensures s.generation <= d <= |s.history| && s.arm == s.history[d - 1].arm
  {
    d := if s.opening.GenerationDue? || s.opening.WidthDue? then s.generation + 1 else s.generation;
  }

  // ----- stamps as flags -------------------------------------------------------------------

  /** Stamps read as flags of dispatch number g. */
  function FlagsAt(dispatch: Dispatch, started: seq<nat>, finished: seq<nat>, threads: map<string, nat>, g: nat): Flags {
    Flags(dispatch.arm, dispatch.width, Stamped(started, g), Stamped(finished, g), Seen(threads, g))
  }

  /** The stamps of a state, as flags of the dispatch in flight. */
  function FlagsOf(s: State): Flags
    requires 0 < s.generation <= |s.history|
  {
    FlagsAt(Current(s), s.started, s.finished, s.threads, s.generation)
  }

  /** What the step is to a watch with flags: the store of the generation clears them, a stamp sets one. */
  function FlagsStep(setup: Setup, f: Flags, s: State, a: Action): Flags
    requires Shaped(setup, s)
  {
    if a.OpeningTurn? && s.opening.GenerationDue? then Cleared(s.opening.next.arm, s.opening.next.width)
    else if a.Turn? && a.worker < |s.workers| then
      match s.workers[a.worker].pc
      case StampDue(i, _) => if i < setup.widest then f.(started := f.started + {i}) else f
      case FinishDue(i, _) => if i < setup.widest then f.(finished := f.finished + {i}) else f
      case InsertDue(_, _) => f.(ran := f.ran + {setup.names[a.worker]})
      case _ => f
    else f
  }

  lemma NoneOfTheNext(setup: Setup, s: State)
    requires Shaped(setup, s) && NamesInv(s) && forall i: nat | i < setup.widest :: StampInv(s, i)
    ensures var g := s.generation + 1; Stamped(s.started, g) == {} && Stamped(s.finished, g) == {} && Seen(s.threads, g) == {}
  {
    forall i: nat | i < setup.widest
      ensures s.started[i] < s.generation + 1 && s.finished[i] < s.generation + 1
    {
      assert StampInv(s, i);
    }
    StampNone(s.started, s.generation + 1);
    StampNone(s.finished, s.generation + 1);
  }

  lemma OpeningStores(setup: Setup, s: State)
    requires Shaped(setup, s) && OpeningInv(s) && s.opening.GenerationDue?
    ensures var s' := Step(setup, s, OpeningTurn);
            && s'.generation == s.generation + 1 <= |s'.history| && Current(s') == s.opening.next
            && s'.started == s.started && s'.finished == s.finished && s'.threads == s.threads
  {
  }

  lemma OpeningClears(setup: Setup, s: State)
    requires Shaped(setup, s) && OpeningInv(s) && NamesInv(s) && s.opening.GenerationDue?
    requires forall i: nat | i < setup.widest :: StampInv(s, i)
    ensures 0 < Step(setup, s, OpeningTurn).generation <= |Step(setup, s, OpeningTurn).history|
    ensures FlagsOf(Step(setup, s, OpeningTurn)) == Cleared(s.opening.next.arm, s.opening.next.width)
  {
    NoneOfTheNext(setup, s);
    OpeningStores(setup, s);
  }

  /** A turn that stores neither a stamp nor a name. */
  predicate StoresNothing(setup: Setup, pc: Pc) {
    !pc.InsertDue? && !(pc.StampDue? && pc.index < setup.widest) && !(pc.FinishDue? && pc.index < setup.widest)
  }

  lemma QuietTurn(setup: Setup, s: State, w: nat)
    requires Shaped(setup, s) && w < |s.workers| && StoresNothing(setup, s.workers[w].pc)
    ensures var s' := Worked(setup, s, w);
            && s'.started == s.started && s'.finished == s.finished && s'.threads == s.threads
            && s'.generation == s.generation && s'.history == s.history
  {
  }

  lemma TurnSetsFlag(setup: Setup, s: State, w: nat)
    requires Shaped(setup, s) && WorkInv(s) && 0 < s.generation <= |s.history| && w < |s.workers|
    ensures FlagsOf(Worked(setup, s, w)) == FlagsStep(setup, FlagsOf(s), s, Turn(w))
  {
    var pc := s.workers[w].pc;
    if StoresNothing(setup, pc) {
      QuietTurn(setup, s, w);
    } else if pc.StampDue? {
      StampOne(s.started, pc.index, pc.seen);
    } else if pc.FinishDue? {
      StampOne(s.finished, pc.index, pc.seen);
    } else {
      SeenOne(s.threads, setup.names[w], pc.seen);
    }
  }

  /** Every step of every run, store by store, refines the watch whose flags each dispatch clears. */
  lemma StampsRefineFlags(setup: Setup, schedule: seq<Action>, t: nat)
    requires t < |schedule| && At(setup, schedule, t + 1).generation > 0
    ensures var s, s' := At(setup, schedule, t), At(setup, schedule, t + 1);
            && s'.generation <= |s'.history|
            && (s.generation == 0 ==> FlagsOf(s') == Cleared(Current(s').arm, Current(s').width))
            && (s.generation > 0 ==> s.generation <= |s.history| && FlagsOf(s') == FlagsStep(setup, FlagsOf(s), s, schedule[t]))
  {
    NextMoment(setup, schedule, t);
    var s, a := At(setup, schedule, t), schedule[t];
    if a.OpeningTurn? && s.opening.GenerationDue? {
      OpeningClears(setup, s);
    } else if a.Turn? && a.worker < |s.workers| && s.generation > 0 {
      TurnSetsFlag(setup, s, a.worker);
    }
  }

  // ----- an index printed twice ------------------------------------------------------------

  const LONE := Setup(1, ["worker"])

  /** One dispatch of one closure, and its worker up to the stamp of its start. */
  function UpToStamp(t: nat): seq<Action>
    requires t <= 7
  {
    [Begin(Dispatch("arm", 1)), OpeningTurn, OpeningTurn, OpeningTurn, Take(0, 0), Turn(0), Turn(0)][..t]
  }

  /** The states it goes through. */
  function StampingState(t: nat): State
    requires t <= 7
  {
    var d := Dispatch("arm", 1);
    var free, history := [Worker(Free, None)], [d];
    if t == 0 then State("", 0, 0, [0], [0], map[], Open, {}, free, [])
    else if t == 1 then State("", 0, 0, [0], [0], map[], ArmDue(d), {}, free, history)
    else if t == 2 then State("arm", 0, 0, [0], [0], map[], WidthDue(d), {}, free, history)
    else if t == 3 then State("arm", 1, 0, [0], [0], map[], GenerationDue(d), {}, free, history)
    else if t == 4 then State("arm", 1, 1, [0], [0], map[], Open, {0}, free, history)
    else if t == 5 then State("arm", 1, 1, [0], [0], map[], Open, {}, [Worker(Taken(0), None)], history)
    else if t == 6 then State("arm", 1, 1, [0], [0], map[], Open, {}, [Worker(StampDue(0, 1), None)], history)
    else State("arm", 1, 1, [1], [0], map[], Open, {}, [Worker(AnnounceDue(0, 1), None)], history)
  }

  lemma BeginsForOne(t: nat)
    requires t < 4
    ensures Shaped(LONE, StampingState(t)) && Step(LONE, StampingState(t), UpToStamp(7)[t]) == StampingState(t + 1)
  {
    assert Below(1) == {0};
  }

  lemma StampsForOne(t: nat)
    requires 4 <= t < 7
    ensures Shaped(LONE, StampingState(t)) && Step(LONE, StampingState(t), UpToStamp(7)[t]) == StampingState(t + 1)
  {
    assert {0} - {0} == {};
  }

  lemma {:induction false} StampingReached(t: nat)
    requires t <= 7
    ensures Run(LONE, UpToStamp(t)) == StampingState(t)
  {
    if t == 0 {
      assert UpToStamp(0) == [] && Zeros(1) == [0];
      assert Run(LONE, UpToStamp(0)).workers == [Worker(Free, None)];
    } else {
      StampingReached(t - 1);
      assert UpToStamp(t)[..t - 1] == UpToStamp(t - 1);
      if t <= 4 {
        BeginsForOne(t - 1);
      } else {
        StampsForOne(t - 1);
      }
    }
  }

  /** A report that loads a start on either side of its stamp prints the index in both lists. */
  lemma AnIndexInBothLists()
    ensures var loads := Loads(6, 6, 6, [6], [7], [7]);
            && LoadOrder(LONE, UpToStamp(7), loads) && FanOut(LONE, UpToStamp(7), loads) == 1
            && InBoth(LONE, UpToStamp(7), loads, 0)
  {
    assert UpToStamp(7)[..6] == UpToStamp(6) && UpToStamp(7)[..7] == UpToStamp(7);
    StampingReached(6);
    StampingReached(7);
  }
}
