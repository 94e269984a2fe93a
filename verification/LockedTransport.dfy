/** The shape that was replaced: a caller holds the lock for the length of its round trip. */
module LockedTransport {
  import opened Options
  import opened Totals
  import opened BridgePipe

  datatype Pc =
    | Resting | Wanting          // between calls; at `lock`
    | Holding | Reading          // lock held: about to write; about to read
    | Failing                    // lock held, the round trip failed: about to count it
    | Unlocking(counted: bool)   // about to drop the guard and return

  datatype Caller = Caller(pc: Pc, body: string)

  /** `failed` is `FAILED`; `called`, `returned` and `succeeded` count calls as they happen. */
  datatype State = State(pipe: Pipe, holder: Option<nat>, callers: seq<Caller>, failed: nat,
                         called: nat, returned: nat, succeeded: nat, log: seq<Exchange>)

  datatype Action = Call(caller: nat, body: string) | Turn(caller: nat, refused: bool) | ChildEchoes | ChildDies

  function Initial(callers: nat): State {
    State(Pipe([], [], true), None, seq(callers, _ => Caller(Resting, "")), 0, 0, 0, 0, [])
  }

  function At(s: State, i: nat, pc: Pc): State
    requires i < |s.callers|
  {
    s.(callers := s.callers[i := s.callers[i].(pc := pc)])
  }

  function Moved(s: State, i: nat, refused: bool): State
    requires i < |s.callers|
  {
    var c := s.callers[i];
    match c.pc
    case Resting => s
    case Wanting => if s.holder.None? then At(s, i, Holding).(holder := Some(i)) else s
    case Holding =>
      if !s.pipe.alive && refused then At(s, i, Failing).(log := s.log + [Exchange(c.body, None)])
      else At(s, i, Reading).(pipe := Written(s.pipe, c.body))
    case Reading =>
      if s.pipe.replies != [] then
        At(s, i, Unlocking(false)).(pipe := s.pipe.(replies := s.pipe.replies[1..]),
                                    log := s.log + [Exchange(c.body, Some(s.pipe.replies[0] + "\n"))])
      else if !s.pipe.alive then At(s, i, Failing).(log := s.log + [Exchange(c.body, None)])
      else s
    case Failing => At(s, i, Unlocking(true)).(failed := s.failed + 1)
    case Unlocking(counted) =>
      At(s, i, Resting).(holder := None, returned := s.returned + 1,
                         succeeded := if counted then s.succeeded else s.succeeded + 1)
  }

  function Step(s: State, a: Action): (s': State)
    ensures |s'.callers| == |s.callers|
  {
    match a
    case Call(i, body) =>
      if i < |s.callers| && s.callers[i].pc == Resting then
        s.(callers := s.callers[i := Caller(Wanting, body)], called := s.called + 1)
      else s
    case Turn(i, refused) => if i < |s.callers| then Moved(s, i, refused) else s
    case ChildEchoes => s.(pipe := Echoed(s.pipe))
    case ChildDies => s.(pipe := Died(s.pipe))
  }

  // ----- what every run keeps --------------------------------------------------------------

  function InCall(c: Caller): nat {
    if c.pc == Resting then 0 else 1
  }

  predicate HoldsLock(c: Caller) {
    c.pc != Resting && c.pc != Wanting
  }

  ghost predicate LockInv(s: State) {
    && (s.holder.Some? ==> s.holder.value < |s.callers| && HoldsLock(s.callers[s.holder.value]))
    && (forall i: nat | i < |s.callers| && HoldsLock(s.callers[i]) :: s.holder == Some(i))
  }

  /** The body the lock holder has written and not had an answer to. */
  function UnderWayOf(s: State): Option<string> {
    if s.holder.Some? && s.holder.value < |s.callers| && s.callers[s.holder.value].pc == Reading
    then Some(s.callers[s.holder.value].body)
    else None
  }

  function WiresOf(s: State): Wires {
    Wires(s.pipe, s.log, UnderWayOf(s))
  }

  predicate BodiesInv(s: State) {
    forall i: nat | i < |s.callers| && s.callers[i].pc != Resting :: '\n' !in s.callers[i].body
  }

  predicate CallsInv(s: State) {
    s.called == s.returned + Total(s.callers, InCall)
  }

  predicate FailuresInv(s: State) {
    Total(s.log, Failure) == s.failed + HolderAt(s, Failing)
  }

  predicate OutcomesInv(s: State) {
    && s.returned == s.succeeded + s.failed - HolderAt(s, Unlocking(true))
    && |s.log| == s.succeeded + s.failed + HolderAt(s, Failing) + HolderAt(s, Unlocking(false))
  }

  ghost predicate Inv(s: State) {
    LockInv(s) && CallsInv(s) && FailuresInv(s) && OutcomesInv(s)
  }

  function HolderAt(s: State, pc: Pc): nat {
    if s.holder.Some? && s.holder.value < |s.callers| && s.callers[s.holder.value].pc == pc then 1 else 0
  }

  lemma MovedLock(s: State, i: nat, refused: bool)
    requires LockInv(s) && i < |s.callers|
    ensures LockInv(Moved(s, i, refused))
  {
  }

  lemma MovedInCall(s: State, i: nat, refused: bool)
    requires i < |s.callers|
    ensures Total(Moved(s, i, refused).callers, InCall)
         == Total(s.callers, InCall) - if s.callers[i].pc.Unlocking? then 1 else 0
  {
    TotalUpdate(s.callers, InCall, i, Moved(s, i, refused).callers[i]);
  }

  predicate BeginsFailing(s: State, i: nat, refused: bool)
    requires i < |s.callers|
  {
    s.callers[i].pc != Failing && Moved(s, i, refused).callers[i].pc == Failing
  }

  lemma MovedFailures(s: State, i: nat, refused: bool)
    requires i < |s.callers|
    ensures Total(Moved(s, i, refused).log, Failure)
         == Total(s.log, Failure) + if BeginsFailing(s, i, refused) then 1 else 0
  {
    var c := s.callers[i];
    match c.pc
    case Holding => TotalAppend(s.log, Failure, Exchange(c.body, None));
    case Reading =>
      TotalAppend(s.log, Failure, Exchange(c.body, None));
      if s.pipe.replies != [] {
        TotalAppend(s.log, Failure, Exchange(c.body, Some(s.pipe.replies[0] + "\n")));
      }
    case _ =>
  }

  lemma MovedCalls(s: State, i: nat, refused: bool)
    requires i < |s.callers| && CallsInv(s)
    ensures CallsInv(Moved(s, i, refused))
  {
    MovedInCall(s, i, refused);
  }

  lemma MovedOutcomes(s: State, i: nat, refused: bool)
    requires i < |s.callers| && (HoldsLock(s.callers[i]) ==> s.holder == Some(i))
    requires OutcomesInv(s)
    ensures OutcomesInv(Moved(s, i, refused))
  {
  }

  lemma MovedFailed(s: State, i: nat, refused: bool)
    requires i < |s.callers| && (HoldsLock(s.callers[i]) ==> s.holder == Some(i))
    requires FailuresInv(s)
    ensures FailuresInv(Moved(s, i, refused))
  {
    MovedFailures(s, i, refused);
  }

  lemma TurnInv(s: State, i: nat, refused: bool)
    requires Inv(s) && i < |s.callers|
    ensures Inv(Moved(s, i, refused))
  {
    MovedLock(s, i, refused);
    MovedCalls(s, i, refused);
    MovedOutcomes(s, i, refused);
    MovedFailed(s, i, refused);
  }

  lemma CallInv(s: State, i: nat, body: string)
    requires Inv(s) && i < |s.callers| && s.callers[i].pc == Resting
    ensures Inv(Step(s, Call(i, body)))
  {
    TotalUpdate(s.callers, InCall, i, Caller(Wanting, body));
  }

  lemma StepInv(s: State, a: Action)
    requires Inv(s)
    ensures Inv(Step(s, a))
  {
    match a
    case Call(i, body) => if i < |s.callers| && s.callers[i].pc == Resting { CallInv(s, i, body); }
    case Turn(i, refused) => if i < |s.callers| { TurnInv(s, i, refused); }
    case _ =>
  }

  // ----- one exchange at a time ------------------------------------------------------------

  /** What a step is to the pipe: at most one move of the one user it has at a time. */
  function MovesOf(s: State, a: Action): seq<Move> {
    match a
    case Call(_, _) => []
    case Turn(i, refused) =>
      if i >= |s.callers| then []
      else if s.callers[i].pc == Holding then
        if !s.pipe.alive && refused then [Refuse(s.callers[i].body)] else [Write(s.callers[i].body)]
      else if s.callers[i].pc == Reading then [Read]
      else []
    case ChildEchoes => [Echo]
    case ChildDies => [Die]
  }

  lemma TurnPlays(s: State, i: nat, refused: bool)
    requires LockInv(s) && i < |s.callers|
    ensures var moves := MovesOf(s, Turn(i, refused));
            |moves| <= 1 && WiresOf(Moved(s, i, refused)) == PlayAny(WiresOf(s), moves)
  {
  }

  lemma StepPlays(s: State, a: Action)
    requires LockInv(s)
    ensures var moves := MovesOf(s, a);
            |moves| <= 1 && WiresOf(Step(s, a)) == PlayAny(WiresOf(s), moves)
  {
    if a.Turn? && a.caller < |s.callers| {
      TurnPlays(s, a.caller, a.refused);
    }
  }

  lemma StepBodies(s: State, a: Action)
    requires BodiesInv(s) && (a.Call? ==> '\n' !in a.body)
    ensures BodiesInv(Step(s, a)) && OneLineMoves(MovesOf(s, a))
  {
  }

  ghost predicate OneLineBodies(schedule: seq<Action>) {
    forall t: nat | t < |schedule| && schedule[t].Call? :: '\n' !in schedule[t].body
  }

  ghost function Run(callers: nat, schedule: seq<Action>): (s: State)
    ensures |s.callers| == callers
  {
    if schedule == [] then Initial(callers)
    else Step(Run(callers, schedule[..|schedule| - 1]), schedule[|schedule| - 1])
  }

  lemma {:induction false} RunInv(callers: nat, schedule: seq<Action>)
    ensures Inv(Run(callers, schedule))
  {
    if schedule == [] {
      TotalZero(Initial(callers).callers, InCall);
    } else {
      RunInv(callers, schedule[..|schedule| - 1]);
      StepInv(Run(callers, schedule[..|schedule| - 1]), schedule[|schedule| - 1]);
    }
  }

  lemma {:induction false} RunBodies(callers: nat, schedule: seq<Action>)
    requires OneLineBodies(schedule)
    ensures BodiesInv(Run(callers, schedule))
  {
    if schedule != [] {
      RunBodies(callers, schedule[..|schedule| - 1]);
      StepBodies(Run(callers, schedule[..|schedule| - 1]), schedule[|schedule| - 1]);
    }
  }

  /** To the pipe, any callers in any interleaving are one user who does one exchange after another. */
  lemma {:induction false} RunPlays(callers: nat, schedule: seq<Action>) returns (moves: seq<Move>)
    ensures Played(moves) == WiresOf(Run(callers, schedule))
    ensures OneLineBodies(schedule) ==> OneLineMoves(moves)
  {
    moves := [];
    if schedule != [] {
      var before, a := schedule[..|schedule| - 1], schedule[|schedule| - 1];
      moves := RunPlays(callers, before);
      RunInv(callers, before);
      var s := Run(callers, before);
      StepPlays(s, a);
      if OneLineBodies(schedule) {
        RunBodies(callers, before);
        StepBodies(s, a);
      }
      PlayedMore(moves, MovesOf(s, a));
      moves := moves + MovesOf(s, a);
    }
  }

  /**
   Whatever the bodies: every reply that has come back is its own caller's if and only if no body
   whose exchange came back has a newline in it; and while the child lives the pipe is in step
   whenever the lock is free if and only if there has been no such body.
   */
  lemma RepliesAreOwnIff(callers: nat, schedule: seq<Action>)
    ensures var s := Run(callers, schedule);
            && (AllOwn(s.log) <==> NoNewlines(s.log))
            && (s.holder.None? && s.pipe.alive ==> (InStep(s.pipe) <==> NoNewlines(s.log)))
  {
    var moves := RunPlays(callers, schedule);
    PlayedOwnIff(moves);
  }

  lemma StepLogs(s: State, a: Action)
    ensures s.log <= Step(s, a).log
  {
  }

  lemma {:induction false} LogGrows(callers: nat, schedule: seq<Action>, later: seq<Action>)
    ensures Run(callers, schedule).log <= Run(callers, schedule + later).log
  {
    if later == [] {
      assert schedule + later == schedule;
    } else {
      var n := |later| - 1;
      LogGrows(callers, schedule, later[..n]);
      StepLogs(Run(callers, schedule + later[..n]), later[n]);
      assert (schedule + later)[..|schedule + later| - 1] == schedule + later[..n];
    }
  }

  /**
   For good: after an exchange that came back to a body with a newline no later exchange brings the
   pipe of a living child back in step, and each that comes back is given a line of an earlier body.
   */
  lemma OutOfStepForGood(callers: nat, schedule: seq<Action>, later: seq<Action>, k: nat, j: nat)
    requires k < |Bodies(Run(callers, schedule).log)| && '\n' in Bodies(Run(callers, schedule).log)[k]
    ensures var s := Run(callers, schedule + later);
            && (s.holder.None? && s.pipe.alive ==> !InStep(s.pipe))
            && (k < j < |Bodies(s.log)| ==> GetsOlderLine(s.log, j))
  {
    var s := Run(callers, schedule + later);
    LogGrows(callers, schedule, later);
    NewlineStays(Run(callers, schedule).log, s.log, k);
    RepliesAreOwnIff(callers, schedule + later);
    var moves := RunPlays(callers, schedule + later);
    if k < j < |Bodies(s.log)| {
      PlayedOlderLine(moves, k, j);
    }
  }

  /** Any number of callers in any interleaving amount to atomic exchanges, one after another. */
  lemma LockedIsAtomic(callers: nat, schedule: seq<Action>)
    requires OneLineBodies(schedule)
    ensures var s := Run(callers, schedule);
            && Atomic(s.log)
            && |s.pipe.replies| <= 1
            && (s.pipe.alive ==> |s.pipe.requests + s.pipe.replies| <= 1)
            && (s.holder.None? ==> InStep(s.pipe))
  {
    var moves := RunPlays(callers, schedule);
    PlayedIsAtomic(moves);
  }

  /**
   With every caller between calls, each call made is a success or is counted in `FAILED`, and each
   success is an exchange that came back.
   */
  lemma LockedAccounts(callers: nat, schedule: seq<Action>)
    requires forall i: nat | i < callers :: Run(callers, schedule).callers[i].pc == Resting
    ensures var s := Run(callers, schedule);
            && s.succeeded + s.failed == s.called == |s.log|
            && s.failed == Total(s.log, Failure)
  {
    RunInv(callers, schedule);
    TotalZero(Run(callers, schedule).callers, InCall);
  }
}
