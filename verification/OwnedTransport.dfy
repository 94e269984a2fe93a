/** The shipped shape: one thread owns the pipe and callers queue at the hub, each with a slot for its reply. */
module OwnedTransport {
  import opened Options
  import opened Totals
  import opened BridgePipe

  datatype Request = Request(caller: nat, body: string)

  datatype Pc =
    | Resting | Sending                    // between calls; about to send to the hub
    | Waiting                              // sent; receiving on its own slot
    | Delivered(reply: Option<string>)     // the slot holds an outcome, or its sender is gone
    | Failing | Returning(counted: bool)   // about to add to `FAILED`; about to return

  datatype Caller = Caller(pc: Pc, body: string)

  datatype WorkerPc = Receiving | Writing(request: Request) | Reading(request: Request)
                    | Replying(request: Request, reply: Option<string>) | Ended

  /** The hub is a queue, first in first out, that can be closed. */
  datatype State = State(pipe: Pipe, queue: seq<Request>, open: bool, worker: WorkerPc, callers: seq<Caller>,
                         failed: nat, called: nat, returned: nat, succeeded: nat, log: seq<Exchange>)

  datatype Action = Call(caller: nat, body: string) | CallerTurn(caller: nat) | WorkerTurn(refused: bool)
                  | Shutdown | WorkerEnds | ChildEchoes | ChildDies

  function Initial(callers: nat): State {
    State(Pipe([], [], true), [], true, Receiving, seq(callers, _ => Caller(Resting, "")), 0, 0, 0, 0, [])
  }

  function At(s: State, i: nat, pc: Pc): State
    requires i < |s.callers|
  {
    s.(callers := s.callers[i := s.callers[i].(pc := pc)])
  }

  function CallerMoved(s: State, i: nat): State
    requires i < |s.callers|
  {
    var c := s.callers[i];
    match c.pc
    case Sending =>
      if s.open then At(s, i, Waiting).(queue := s.queue + [Request(i, c.body)]) else At(s, i, Failing)
    case Delivered(reply) => At(s, i, if reply.Some? then Returning(false) else Failing)
    case Failing => At(s, i, Returning(true)).(failed := s.failed + 1)
    case Returning(counted) =>
      At(s, i, Resting).(returned := s.returned + 1, succeeded := if counted then s.succeeded else s.succeeded + 1)
    case _ => s
  }

  /** A send to a caller's slot fails when the caller has stopped waiting, and then counts a failure itself. */
  function Deliver(s: State, r: Request, reply: Option<string>): State {
    if r.caller < |s.callers| && s.callers[r.caller].pc == Waiting then At(s, r.caller, Delivered(reply))
    else s.(failed := s.failed + 1)
  }

  function WorkerMoved(s: State, refused: bool): State {
    match s.worker
    case Receiving => if s.queue == [] then s else s.(worker := Writing(s.queue[0]), queue := s.queue[1..])
    case Writing(r) =>
      if !s.pipe.alive && refused then s.(worker := Replying(r, None), log := s.log + [Exchange(r.body, None)])
      else s.(worker := Reading(r), pipe := Written(s.pipe, r.body))
    case Reading(r) =>
      if s.pipe.replies != [] then
        var line := s.pipe.replies[0] + "\n";
        s.(worker := Replying(r, Some(line)), pipe := s.pipe.(replies := s.pipe.replies[1..]),
           log := s.log + [Exchange(r.body, Some(line))])
      else if !s.pipe.alive then s.(worker := Replying(r, None), log := s.log + [Exchange(r.body, None)])
      else s
    case Replying(r, reply) => Deliver(s.(worker := Receiving), r, reply)
    // The owner is gone, so the slot of a request left in the hub loses its sender.
    case Ended => if s.queue == [] then s else Deliver(s.(queue := s.queue[1..]), s.queue[0], None)
  }

  function Step(s: State, a: Action): (s': State)
    ensures |s'.callers| == |s.callers|
  {
    match a
    case Call(i, body) =>
      if i < |s.callers| && s.callers[i].pc == Resting then
        s.(callers := s.callers[i := Caller(Sending, body)], called := s.called + 1)
      else s
    case CallerTurn(i) => if i < |s.callers| then CallerMoved(s, i) else s
    case WorkerTurn(refused) => WorkerMoved(s, refused)
    case Shutdown => s.(open := false)
    case WorkerEnds => if !s.open && s.worker == Receiving then s.(worker := Ended) else s
    case ChildEchoes => s.(pipe := Echoed(s.pipe))
    case ChildDies => s.(pipe := Died(s.pipe))
  }

  // ----- what every run keeps --------------------------------------------------------------

  function InCall(c: Caller): nat {
    if c.pc == Resting then 0 else 1
  }

  function CountedNotReturned(c: Caller): nat {
    if c.pc == Returning(true) then 1 else 0
  }

  /** The requests that have not been answered: the worker's own, then the hub's. */
  function Unanswered(s: State): seq<Request> {
    match s.worker
    case Writing(r) => [r] + s.queue
    case Reading(r) => [r] + s.queue
    case Replying(r, _) => [r] + s.queue
    case _ => s.queue
  }

  /** The body the owner has written and not had an answer to. */
  function UnderWayOf(s: State): Option<string> {
    if s.worker.Reading? then Some(s.worker.request.body) else None
  }

  function WiresOf(s: State): Wires {
    Wires(s.pipe, s.log, UnderWayOf(s))
  }

  /** Each of the requests is of a caller waiting for it, no caller has two, and none that waits has none. */
  ghost predicate Matched(pending: seq<Request>, callers: seq<Caller>) {
    && (forall k: nat | k < |pending| ::
          && pending[k].caller < |callers|
          && callers[pending[k].caller] == Caller(Waiting, pending[k].body))
    && (forall j: nat, k: nat | j < k < |pending| :: pending[j].caller != pending[k].caller)
    && (forall i: nat | i < |callers| && callers[i].pc == Waiting :: HasRequest(pending, i))
  }

  ghost predicate RequestsInv(s: State) {
    Matched(Unanswered(s), s.callers)
  }

  ghost predicate HasRequest(pending: seq<Request>, i: nat) {
    exists k: nat | k < |pending| :: pending[k].caller == i
  }

  /** A reply in a caller's slot, or in the owner's hand, is that of a logged exchange of the caller's own body. */
  ghost predicate SlotsInv(s: State) {
    && (forall i: nat | i < |s.callers| && HasLine(s.callers[i].pc) ::
          Exchange(s.callers[i].body, s.callers[i].pc.reply) in s.log)
    && (s.worker.Replying? && s.worker.reply.Some? ==> Exchange(s.worker.request.body, s.worker.reply) in s.log)
  }

  predicate HasLine(pc: Pc) {
    pc.Delivered? && pc.reply.Some?
  }

  ghost predicate AccountsInv(s: State) {
    && s.called == s.returned + Total(s.callers, InCall)
    && s.succeeded + s.failed == s.returned + Total(s.callers, CountedNotReturned)
  }

  ghost predicate Inv(s: State) {
    RequestsInv(s) && SlotsInv(s) && AccountsInv(s)
  }

  predicate BodiesInv(s: State) {
    forall i: nat | i < |s.callers| && s.callers[i].pc != Resting :: '\n' !in s.callers[i].body
  }

  lemma CallerChange(s: State, i: nat, c: Caller)
    requires i < |s.callers|
    ensures Total(s.callers[i := c], InCall) == Total(s.callers, InCall) - InCall(s.callers[i]) + InCall(c)
    ensures Total(s.callers[i := c], CountedNotReturned)
         == Total(s.callers, CountedNotReturned) - CountedNotReturned(s.callers[i]) + CountedNotReturned(c)
  {
    TotalUpdate(s.callers, InCall, i, c);
    TotalUpdate(s.callers, CountedNotReturned, i, c);
  }

  /** A caller that is not waiting has no request, so what it does leaves the requests alone. */
  lemma NotWaitingNotPending(s: State, i: nat)
    requires RequestsInv(s) && i < |s.callers| && s.callers[i].pc != Waiting
    ensures forall k: nat | k < |Unanswered(s)| :: Unanswered(s)[k].caller != i
  {
  }

  lemma MatchedAppend(pending: seq<Request>, callers: seq<Caller>, i: nat)
    requires Matched(pending, callers) && i < |callers| && callers[i].pc != Waiting
    ensures Matched(pending + [Request(i, callers[i].body)], callers[i := callers[i].(pc := Waiting)])
  {
    var pending', callers' := pending + [Request(i, callers[i].body)], callers[i := callers[i].(pc := Waiting)];
    assert forall k: nat | k < |pending| :: pending[k].caller != i;
    forall c: nat | c < |callers'| && callers'[c].pc == Waiting
      ensures HasRequest(pending', c)
    {
      if c == i {
        assert pending'[|pending|].caller == i;
      } else {
        assert HasRequest(pending, c);
        var k: nat :| k < |pending| && pending[k].caller == c;
        assert pending'[k].caller == c;
      }
    }
  }

  lemma MatchedDropFirst(pending: seq<Request>, callers: seq<Caller>, pc: Pc)
    requires Matched(pending, callers) && pending != [] && pc != Waiting
    ensures Matched(pending[1..], callers[pending[0].caller := callers[pending[0].caller].(pc := pc)])
  {
    var first := pending[0].caller;
    var callers' := callers[first := callers[first].(pc := pc)];
    assert forall k: nat | k < |pending[1..]| :: pending[1..][k] == pending[k + 1];
    forall c: nat | c < |callers'| && callers'[c].pc == Waiting
      ensures HasRequest(pending[1..], c)
    {
      assert HasRequest(pending, c);
      var k: nat :| k < |pending| && pending[k].caller == c;
      assert pending[1..][k - 1].caller == c;
    }
  }

  lemma SendInv(s: State, i: nat)
    requires Inv(s) && i < |s.callers| && s.callers[i].pc == Sending && s.open
    ensures Inv(CallerMoved(s, i))
  {
    var s' := CallerMoved(s, i);
    MatchedAppend(Unanswered(s), s.callers, i);
    assert Unanswered(s') == Unanswered(s) + [Request(i, s.callers[i].body)];
    CallerChange(s, i, CallerMoved(s, i).callers[i]);
  }

  lemma QuietCallerRequests(s: State, i: nat)
    requires RequestsInv(s) && i < |s.callers| && s.callers[i].pc != Waiting && !(s.callers[i].pc == Sending && s.open)
    ensures RequestsInv(CallerMoved(s, i))
  {
    NotWaitingNotPending(s, i);
    assert Unanswered(CallerMoved(s, i)) == Unanswered(s);
  }

  lemma QuietCallerAccounts(s: State, i: nat)
    requires AccountsInv(s) && i < |s.callers| && !(s.callers[i].pc == Sending && s.open)
    ensures AccountsInv(CallerMoved(s, i))
  {
    CallerChange(s, i, CallerMoved(s, i).callers[i]);
  }

  lemma QuietCallerSlots(s: State, i: nat)
    requires SlotsInv(s) && i < |s.callers| && !(s.callers[i].pc == Sending && s.open)
    ensures SlotsInv(CallerMoved(s, i))
  {
  }

  lemma CallerMovedInv(s: State, i: nat)
    requires Inv(s) && i < |s.callers| && !(s.callers[i].pc == Sending && s.open)
    ensures Inv(CallerMoved(s, i))
  {
    QuietCallerAccounts(s, i);
    QuietCallerSlots(s, i);
    if s.callers[i].pc != Waiting {
      QuietCallerRequests(s, i);
    }
  }

  lemma CallInv(s: State, i: nat, body: string)
    requires Inv(s) && i < |s.callers| && s.callers[i].pc == Resting
    ensures Inv(Step(s, Call(i, body)))
  {
    var s' := Step(s, Call(i, body));
    CallerChange(s, i, Caller(Sending, body));
    NotWaitingNotPending(s, i);
    assert Unanswered(s') == Unanswered(s);
  }

  /** Answering the first unanswered request: its caller is waiting, and nobody else is touched. */
  lemma DeliverRequests(s: State, s1: State, r: Request, reply: Option<string>)
    requires RequestsInv(s) && Unanswered(s) == [r] + Unanswered(s1)
    requires s1.callers == s.callers && !s1.worker.Replying?
    ensures r.caller < |s.callers| && s.callers[r.caller] == Caller(Waiting, r.body)
    ensures RequestsInv(Deliver(s1, r, reply))
  {
    assert Unanswered(s)[0] == r && Unanswered(s)[1..] == Unanswered(s1);
    MatchedDropFirst(Unanswered(s), s.callers, Delivered(reply));
    assert Unanswered(Deliver(s1, r, reply)) == Unanswered(s1);
  }

  lemma DeliverInv(s: State, s1: State, r: Request, reply: Option<string>)
    requires Inv(s) && Unanswered(s) == [r] + Unanswered(s1)
    requires s1 == s.(worker := s1.worker, queue := s1.queue) && !s1.worker.Replying?
    requires reply.Some? ==> Exchange(r.body, reply) in s.log
    ensures Inv(Deliver(s1, r, reply)) && Deliver(s1, r, reply).failed == s.failed
  {
    DeliverRequests(s, s1, r, reply);
    var s' := Deliver(s1, r, reply);
    CallerChange(s1, r.caller, s'.callers[r.caller]);
    assert SlotsInv(s');
    assert AccountsInv(s');
  }

  /** A step of the worker that answers nobody leaves the requests as they were. */
  lemma SameRequests(s: State, s': State)
    requires RequestsInv(s) && Unanswered(s') == Unanswered(s) && s'.callers == s.callers
    ensures RequestsInv(s')
  {
  }

  lemma ExchangeSlots(s: State, refused: bool)
    requires SlotsInv(s) && (s.worker.Writing? || s.worker.Reading?)
    ensures SlotsInv(WorkerMoved(s, refused))
  {
    var s' := WorkerMoved(s, refused);
    assert s.log <= s'.log;
    assert forall e: Exchange | e in s.log :: e in s'.log;
    if s'.worker.Replying? {
      assert s'.log[|s.log|] == Exchange(s'.worker.request.body, s'.worker.reply);
    }
  }

  lemma WorkerExchangesInv(s: State, refused: bool)
    requires Inv(s) && (s.worker.Writing? || s.worker.Reading?)
    ensures Inv(WorkerMoved(s, refused))
  {
    SameRequests(s, WorkerMoved(s, refused));
    ExchangeSlots(s, refused);
  }

  lemma WorkerTakesInv(s: State, refused: bool)
    requires Inv(s) && s.worker == Receiving
    ensures Inv(WorkerMoved(s, refused))
  {
    var s' := WorkerMoved(s, refused);
    if s.queue != [] {
      assert Unanswered(s') == [s.queue[0]] + s.queue[1..];
    }
    SameRequests(s, s');
  }

  lemma WorkerRepliesInv(s: State, refused: bool)
    requires Inv(s) && s.worker.Replying?
    ensures Inv(WorkerMoved(s, refused))
  {
    DeliverInv(s, s.(worker := Receiving), s.worker.request, s.worker.reply);
  }

  lemma EndedWorkerInv(s: State, refused: bool)
    requires Inv(s) && s.worker == Ended
    ensures Inv(WorkerMoved(s, refused))
  {
    if s.queue != [] {
      DeliverInv(s, s.(queue := s.queue[1..]), s.queue[0], None);
    }
  }

  lemma WorkerMovedInv(s: State, refused: bool)
    requires Inv(s)
    ensures Inv(WorkerMoved(s, refused))
  {
    match s.worker
    case Replying(_, _) => WorkerRepliesInv(s, refused);
    case Ended => EndedWorkerInv(s, refused);
    case Receiving => WorkerTakesInv(s, refused);
    case _ => WorkerExchangesInv(s, refused);
  }

  lemma CallerTurnInv(s: State, i: nat)
    requires Inv(s) && i < |s.callers|
    ensures Inv(CallerMoved(s, i))
  {
    if s.callers[i].pc == Sending && s.open {
      SendInv(s, i);
    } else {
      CallerMovedInv(s, i);
    }
  }

  lemma StepInv(s: State, a: Action)
    requires Inv(s)
    ensures Inv(Step(s, a))
  {
    match a
    case Call(i, body) => if i < |s.callers| && s.callers[i].pc == Resting { CallInv(s, i, body); }
    case CallerTurn(i) => if i < |s.callers| { CallerTurnInv(s, i); }
    case WorkerTurn(refused) => WorkerMovedInv(s, refused);
    case _ => BesideCallersInv(s, a);
  }

  /** The hub closing, the owner leaving, the child echoing or dying. */
  lemma BesideCallersInv(s: State, a: Action)
    requires Inv(s) && (a == Shutdown || a == WorkerEnds || a == ChildEchoes || a == ChildDies)
    ensures Inv(Step(s, a))
  {
    assert Unanswered(Step(s, a)) == Unanswered(s);
    SameRequests(s, Step(s, a));
  }

  // ----- one exchange at a time ------------------------------------------------------------

  /** What a step is to the pipe: at most one move, the owner's or the child's. */
  function MovesOf(s: State, a: Action): seq<Move> {
    match a
    case WorkerTurn(refused) =>
      if s.worker.Writing? then
        if !s.pipe.alive && refused then [Refuse(s.worker.request.body)] else [Write(s.worker.request.body)]
      else if s.worker.Reading? then [Read]
      else []
    case ChildEchoes => [Echo]
    case ChildDies => [Die]
    case _ => []
  }

  lemma StepPlays(s: State, a: Action)
    ensures var moves := MovesOf(s, a);
            |moves| <= 1 && WiresOf(Step(s, a)) == PlayAny(WiresOf(s), moves)
  {
  }

  /** What the owner is about to write is a waiting caller's body. */
  lemma StepWritesOneLine(s: State, a: Action)
    requires RequestsInv(s) && BodiesInv(s)
    ensures OneLineMoves(MovesOf(s, a))
  {
    if s.worker.Writing? {
      assert Unanswered(s)[0] == s.worker.request;
    }
  }

  lemma CallerBodies(s: State, i: nat)
    requires BodiesInv(s) && i < |s.callers|
    ensures BodiesInv(CallerMoved(s, i))
  {
  }

  lemma DeliverBodies(s: State, r: Request, reply: Option<string>)
    requires BodiesInv(s)
    ensures BodiesInv(Deliver(s, r, reply))
  {
  }

  lemma StepBodies(s: State, a: Action)
    requires BodiesInv(s) && (a.Call? ==> '\n' !in a.body)
    ensures BodiesInv(Step(s, a))
  {
    match a
    case CallerTurn(i) => if i < |s.callers| { CallerBodies(s, i); }
    case WorkerTurn(_) =>
      if s.worker.Replying? {
        DeliverBodies(s.(worker := Receiving), s.worker.request, s.worker.reply);
      } else if s.worker.Ended? && s.queue != [] {
        DeliverBodies(s.(queue := s.queue[1..]), s.queue[0], None);
      }
    case _ =>
  }

  lemma SlotsAreOwn(s: State)
    requires SlotsInv(s) && Atomic(s.log)
    ensures forall i: nat | i < |s.callers| && HasLine(s.callers[i].pc) ::
              s.callers[i].pc.reply.value == s.callers[i].body + "\n"
  {
    forall i: nat | i < |s.callers| && HasLine(s.callers[i].pc)
      ensures s.callers[i].pc.reply.value == s.callers[i].body + "\n"
    {
      AtomicIsOwn(s.log, Exchange(s.callers[i].body, s.callers[i].pc.reply));
    }
  }

  ghost predicate OneLineBodies(schedule: seq<Action>) {
    forall t: nat | t < |schedule| && schedule[t].Call? :: '\n' !in schedule[t].body
  }

  ghost function Run(callers: nat, schedule: seq<Action>): (s: State)
    ensures |s.callers| == callers
  {
    if schedule == [] then Initial(callers)
    else Step(Run(callers, schedule[..|schedule| - 1]), schedule[|schedule| - 1])
  }

  lemma {:induction false} RunInv(callers: nat, schedule: seq<Action>)
    ensures Inv(Run(callers, schedule))
  {
    if schedule == [] {
      TotalZero(Initial(callers).callers, InCall);
      TotalZero(Initial(callers).callers, CountedNotReturned);
    } else {
      RunInv(callers, schedule[..|schedule| - 1]);
      StepInv(Run(callers, schedule[..|schedule| - 1]), schedule[|schedule| - 1]);
    }
  }

  lemma {:induction false} RunBodies(callers: nat, schedule: seq<Action>)
    requires OneLineBodies(schedule)
    ensures BodiesInv(Run(callers, schedule))
  {
    if schedule != [] {
      RunBodies(callers, schedule[..|schedule| - 1]);
      StepBodies(Run(callers, schedule[..|schedule| - 1]), schedule[|schedule| - 1]);
    }
  }

  /** To the pipe, the callers behind the queue are one user who does one exchange after another. */
  lemma {:induction false} RunPlays(callers: nat, schedule: seq<Action>) returns (moves: seq<Move>)
    ensures Played(moves) == WiresOf(Run(callers, schedule))
    ensures OneLineBodies(schedule) ==> OneLineMoves(moves)
  {
    moves := [];
    if schedule != [] {
      var before, a := schedule[..|schedule| - 1], schedule[|schedule| - 1];
      moves := RunPlays(callers, before);
      var s := Run(callers, before);
      StepPlays(s, a);
      if OneLineBodies(schedule) {
        RunInv(callers, before);
        RunBodies(callers, before);
        StepWritesOneLine(s, a);
      }
      PlayedMore(moves, MovesOf(s, a));
      moves := moves + MovesOf(s, a);
    }
  }

  /**
   Whatever the bodies: a reply in a caller's slot is that of a logged exchange of its own body;
   every reply that came back is its own caller's if and only if no body that came back has a
   newline; and while the child lives the pipe is in step between exchanges exactly then.
   */
  lemma RepliesAreOwnIff(callers: nat, schedule: seq<Action>)
    ensures var s := Run(callers, schedule);
            && (AllOwn(s.log) <==> NoNewlines(s.log))
            && (!s.worker.Reading? && s.pipe.alive ==> (InStep(s.pipe) <==> NoNewlines(s.log)))
            && (forall i: nat | i < callers && HasLine(s.callers[i].pc) ::
                  Exchange(s.callers[i].body, s.callers[i].pc.reply) in s.log)
  {
    RunInv(callers, schedule);
    var moves := RunPlays(callers, schedule);
    PlayedOwnIff(moves);
  }

  lemma StepLogs(s: State, a: Action)
    ensures s.log <= Step(s, a).log
  {
  }

  lemma {:induction false} LogGrows(callers: nat, schedule: seq<Action>, later: seq<Action>)
    ensures Run(callers, schedule).log <= Run(callers, schedule + later).log
  {
    if later == [] {
      assert schedule + later == schedule;
    } else {
      var n := |later| - 1;
      LogGrows(callers, schedule, later[..n]);
      StepLogs(Run(callers, schedule + later[..n]), later[n]);
      assert (schedule + later)[..|schedule + later| - 1] == schedule + later[..n];
    }
  }

  /** For good, as behind the lock. */
  lemma OutOfStepForGood(callers: nat, schedule: seq<Action>, later: seq<Action>, k: nat, j: nat)
    requires k < |Bodies(Run(callers, schedule).log)| && '\n' in Bodies(Run(callers, schedule).log)[k]
    ensures var s := Run(callers, schedule + later);
            && (!s.worker.Reading? && s.pipe.alive ==> !InStep(s.pipe))
            && (k < j < |Bodies(s.log)| ==> GetsOlderLine(s.log, j))
  {
    var s := Run(callers, schedule + later);
    LogGrows(callers, schedule, later);
    NewlineStays(Run(callers, schedule).log, s.log, k);
    RepliesAreOwnIff(callers, schedule + later);
    var moves := RunPlays(callers, schedule + later);
    if k < j < |Bodies(s.log)| {
      PlayedOlderLine(moves, k, j);
    }
  }

  /**
   The queue amounts to the same atomic exchanges the lock does, and the outcome that reaches a
   caller's slot is the reply to that caller's own body.
   */
  lemma OwnedIsAtomic(callers: nat, schedule: seq<Action>)
    requires OneLineBodies(schedule)
    ensures var s := Run(callers, schedule);
            && Atomic(s.log)
            && |s.pipe.replies| <= 1
            && (s.pipe.alive ==> |s.pipe.requests + s.pipe.replies| <= 1)
            && (!s.worker.Reading? ==> InStep(s.pipe))
            && (forall i: nat | i < callers && HasLine(s.callers[i].pc) ::
                  s.callers[i].pc.reply.value == s.callers[i].body + "\n")
  {
    RunInv(callers, schedule);
    var moves := RunPlays(callers, schedule);
    PlayedIsAtomic(moves);
    SlotsAreOwn(Run(callers, schedule));
  }

  /** No call is lost: a caller that waits has one request of its own, in the hub or with the worker. */
  lemma NoCallIsLost(callers: nat, schedule: seq<Action>, i: nat) returns (k: nat)
    requires i < callers && Run(callers, schedule).callers[i].pc == Waiting
    ensures var s := Run(callers, schedule);
            && k < |Unanswered(s)| && Unanswered(s)[k] == Request(i, s.callers[i].body)
            && forall j: nat | j < |Unanswered(s)| && Unanswered(s)[j].caller == i :: j == k
  {
    RunInv(callers, schedule);
    var s := Run(callers, schedule);
    assert HasRequest(Unanswered(s), i);
    k :| k < |Unanswered(s)| && Unanswered(s)[k].caller == i;
  }

  // ----- successes -------------------------------------------------------------------------

  function CameBack(e: Exchange): nat {
    if e.reply.Some? then 1 else 0
  }

  /** The caller has a reply and has not yet returned with it. */
  function HasReply(c: Caller): nat {
    if HasLine(c.pc) || c.pc == Returning(false) then 1 else 0
  }

  function InHand(worker: WorkerPc): nat {
    if worker.Replying? && worker.reply.Some? then 1 else 0
  }

  /** An exchange that came back is a success, or on its way to be one. */
  predicate SuccessInv(s: State) {
    Total(s.log, CameBack) == s.succeeded + Total(s.callers, HasReply) + InHand(s.worker)
  }

  lemma CallerReplies(s: State, i: nat)
    requires i < |s.callers|
    ensures var s' := CallerMoved(s, i);
            s'.succeeded + HasReply(s'.callers[i]) == s.succeeded + HasReply(s.callers[i])
  {
  }

  lemma CallerSuccess(s: State, i: nat)
    requires SuccessInv(s) && i < |s.callers|
    ensures SuccessInv(CallerMoved(s, i))
  {
    CallerReplies(s, i);
    CallerTotals(s, i, CallerMoved(s, i));
  }

  lemma CallerTotals(s: State, i: nat, s': State)
    requires i < |s.callers| == |s'.callers| && s'.callers == s.callers[i := s'.callers[i]]
    ensures Total(s'.callers, HasReply) == Total(s.callers, HasReply) - HasReply(s.callers[i]) + HasReply(s'.callers[i])
  {
    TotalUpdate(s.callers, HasReply, i, s'.callers[i]);
  }

  /** An answer goes from the owner's hand to a caller that waits for it. */
  lemma DeliverSuccess(s: State, r: Request, reply: Option<string>)
    requires r.caller < |s.callers| && s.callers[r.caller].pc == Waiting
    ensures var s' := Deliver(s, r, reply);
            && s'.log == s.log && s'.succeeded == s.succeeded && s'.worker == s.worker
            && Total(s'.callers, HasReply) == Total(s.callers, HasReply) + if reply.Some? then 1 else 0
  {
    TotalUpdate(s.callers, HasReply, r.caller, Deliver(s, r, reply).callers[r.caller]);
  }

  lemma AnsweredWaits(s: State)
    requires RequestsInv(s) && s.worker.Replying?
    ensures s.worker.request.caller < |s.callers| && s.callers[s.worker.request.caller].pc == Waiting
  {
    assert Unanswered(s)[0] == s.worker.request;
  }

  lemma ReplySuccess(s: State)
    requires RequestsInv(s) && SuccessInv(s) && s.worker.Replying?
    ensures SuccessInv(WorkerMoved(s, false))
  {
    AnsweredWaits(s);
    DeliverSuccess(s.(worker := Receiving), s.worker.request, s.worker.reply);
  }

  lemma LostSuccess(s: State)
    requires RequestsInv(s) && SuccessInv(s) && s.worker.Ended? && s.queue != []
    ensures SuccessInv(WorkerMoved(s, false))
  {
    assert Unanswered(s)[0] == s.queue[0];
    DeliverSuccess(s.(queue := s.queue[1..]), s.queue[0], None);
  }

  /** An exchange is logged as it comes into the owner's hand. */
  predicate Logs(s: State, s': State) {
    && s'.callers == s.callers && s'.succeeded == s.succeeded && !s.worker.Replying?
    && if s'.worker.Replying? then
         |s'.log| == |s.log| + 1 && s'.log[..|s.log|] == s.log && CameBack(s'.log[|s.log|]) == InHand(s'.worker)
       else s'.log == s.log
  }

  lemma LoggedSuccess(s: State, s': State)
    requires SuccessInv(s) && Logs(s, s')
    ensures SuccessInv(s')
  {
    if s'.worker.Replying? {
      TotalAppend(s.log, CameBack, s'.log[|s.log|]);
      assert s'.log == s.log + [s'.log[|s.log|]];
    }
  }

  lemma ExchangeLogs(s: State, refused: bool)
    requires s.worker.Writing? || s.worker.Reading?
    ensures Logs(s, WorkerMoved(s, refused))
  {
  }

  lemma WorkerSuccess(s: State, refused: bool)
    requires RequestsInv(s) && SuccessInv(s)
    ensures SuccessInv(WorkerMoved(s, refused))
  {
    match s.worker
    case Replying(_, _) => ReplySuccess(s);
    case Ended => if s.queue != [] { LostSuccess(s); }
    case Receiving =>
    case _ =>
      ExchangeLogs(s, refused);
      LoggedSuccess(s, WorkerMoved(s, refused));
  }

  lemma {:induction false} RunSuccess(callers: nat, schedule: seq<Action>)
    ensures SuccessInv(Run(callers, schedule))
  {
    if schedule == [] {
      TotalZero(Initial(callers).callers, HasReply);
    } else {
      var before, a := schedule[..|schedule| - 1], schedule[|schedule| - 1];
      RunSuccess(callers, before);
      RunInv(callers, before);
      SuccessStep(Run(callers, before), a);
    }
  }

  lemma SuccessStep(s: State, a: Action)
    requires RequestsInv(s) && SuccessInv(s)
    ensures SuccessInv(Step(s, a))
  {
    match a
    case Call(i, body) =>
      if i < |s.callers| && s.callers[i].pc == Resting {
        TotalUpdate(s.callers, HasReply, i, Caller(Sending, body));
      }
    case CallerTurn(i) => if i < |s.callers| { CallerSuccess(s, i); }
    case WorkerTurn(refused) => WorkerSuccess(s, refused);
    case _ =>
  }

  /**
   With every caller between calls, each call made is a success or is counted in `FAILED`, once, and
   each success is an exchange that came back.
   */
  lemma OwnedAccounts(callers: nat, schedule: seq<Action>)
    requires forall i: nat | i < callers :: Run(callers, schedule).callers[i].pc == Resting
    ensures var s := Run(callers, schedule);
            s.succeeded + s.failed == s.called && s.succeeded == Total(s.log, CameBack)
  {
    RunInv(callers, schedule);
    RunSuccess(callers, schedule);
    var s := Run(callers, schedule);
    TotalZero(s.callers, InCall);
    TotalZero(s.callers, CountedNotReturned);
    TotalZero(s.callers, HasReply);
    if s.worker.Replying? {
      AnsweredWaits(s);
      assert false;
    }
  }
}
